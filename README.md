# IPL live winner predictions — a Dafny model

The dashboard in `app.py` ranks the teams of an IPL season by how likely a frozen
classifier thinks each is to win the tournament, using only the matches "played so far".
This project models the part of `get_live_predictions` that is plain logic, and proves
what it promises:

- **Season and snapshot** (`Snapshot`): the season's matches for the chosen year, in table
  order, and the snapshot `iloc[:at_match_number]` — a prefix, with Python's slice rules,
  so a negative cutoff counts back from the end. An empty snapshot returns the message
  "Not enough matches have been played yet." and nothing else is computed.
- **Roster** (`Snapshot.Roster`): pandas `unique` over all first sides followed by all
  second sides of the full season: each team once, in order of first appearance.
- **Feature builder** (`Features`): one record per roster team, built by a loop
  (`BuildFeatures`) and specified by `FeatureTable`. Each record has points (two per
  win), a win percentage (an exact `real`, 0 when the team has not played), squad cost
  in crores (price total / 10,000,000, an exact `real`) and the number of purchases
  strictly above 80,000,000. The divisor `1_00_00_000` is 10,000,000, so purchases of
  90,000,000 and 50,000,000 give 14 crores (`Features.AuctionScenario`).
- **Ranking** (`Ranking`): each team is paired with its probability. The rows are then
  sorted by probability, highest first.
- **Snapshot points** (`SnapshotPoints`): `L = T - 4`, `L // 2` and `int(L * 0.75)`.
- **Pipeline** (`LivePredictions.GetLivePredictions`): the steps above in the source's order.

Modules: `Tables` (the two row types), `Seqs` (order-preserving selection and pandas
`unique`, with their lemmas), `Snapshot`, `Features`, `Ranking`, `SnapshotPoints`,
`LivePredictions`.

## Model

| member | source | states |
|---|---|---|
| `Seqs.Filter` | app.py:30 | a boolean-mask selection keeps exactly the rows satisfying the mask and never grows |
| `Seqs.Distinct` | app.py:41 | `unique` yields no duplicates and exactly the values of its input |
| `Seqs.DistinctFirstAppearanceOrder` | app.py:41 | `unique` lists values in strictly increasing order of first appearance |
| `Snapshot.SeasonMatches` | app.py:30 | the season holds exactly the table's matches of that year |
| `Snapshot.SeasonMatchesOrder` | app.py:30 | the season filter keeps table order (distributes over concatenation) and keeps a one-year table whole |
| `Snapshot.SliceEnd` | app.py:34 | a slice end never passes the sequence length |
| `Snapshot.TakePrefix` | app.py:34 | `iloc[:n]` is a prefix of its input |
| `Snapshot.SnapshotMatches` | app.py:34 | the snapshot is a prefix of the season of length min(n, season length) for n >= 0, and of length max(0, season length + n) for negative n |
| `Snapshot.SnapshotWholeSeason` | app.py:34 | a cutoff at or beyond the season length gives the whole season |
| `Snapshot.SnapshotEmptyIff` | app.py:34-37 | the snapshot is empty exactly when the season is empty, the cutoff is 0, or a negative cutoff reaches past the first match |
| `Snapshot.SnapshotMonotone` | app.py:34 | a larger non-negative cutoff extends the snapshot |
| `Snapshot.RosterMembers` | app.py:41 | the roster has no duplicates, and a team is in it exactly when it plays in some season match as either side |
| `Snapshot.FirstSides` | app.py:41 | position i holds the first side (`Team1`) of season match i |
| `Snapshot.SecondSides` | app.py:41 | position i holds the second side (`Team2`) of season match i |
| `Snapshot.Roster` | app.py:41 | the roster has no duplicates and at most two teams per season match |
| `Seqs.DistinctLength` | app.py:41 | `unique` never yields more values than its input has |
| `Snapshot.RosterFirstSidesFirst` | app.py:41 | for every season, the distinct first sides form a prefix of the roster |
| `Snapshot.RosterOrder` | app.py:41 | the roster follows first appearance in the first-sides-then-second-sides list |
| `Features.TeamMatches` | app.py:44 | a team's matches are exactly the snapshot matches it plays in |
| `Features.WonBy` | app.py:45 | the won matches are exactly those whose recorded winner is the team |
| `Features.WinPct` | app.py:47 | the win percentage lies in [0, 1], is 0 without a played match, and otherwise times the played count equals the wins |
| `Features.TeamAuctionRows` | app.py:49 | a team's auction rows are exactly the season rows it bought |
| `Features.Played` | app.py:44-47 | `len(team_matches_fh)` is at most the snapshot length |
| `Features.Wins` | app.py:45 | wins are at most the matches played |
| `Features.TotalPrice` | app.py:50 | with no negative price, the `.sum()` of prices is non-negative |
| `Features.StarCount` | app.py:51 | the star index is at most the number of the team's purchases |
| `Features.StarCountCounts` | app.py:51 | the star index adds up over concatenated rows, and one purchase counts exactly when its price is strictly above 80,000,000 |
| `Features.StarThresholdBoundary` | app.py:51 | a price of exactly 80,000,000 is no star, 80,000,001 is one |
| `Features.FeaturesOf` | app.py:44-58 | the appended record is for its team, with points between 0 and twice the played count, a win percentage in [0, 1] and a star index at most the team's purchase count |
| `Features.WinsAreWonMatchesPlayed` | app.py:44-45 | wins are at most matches played, and equal the snapshot matches the team both played and won |
| `Features.FeaturesOfResults` | app.py:44-47 | a record is for its team; points are twice the wins and at most twice the played count; win percentage is in [0, 1], 0 (with 0 points) without a played match, wins/played otherwise |
| `Features.FeaturesOfAuction` | app.py:49-51 | squad cost times 10,000,000 is the price total of the team's rows; the star index is bounded by the team's row count |
| `Features.UnplayedTeam` | app.py:44-47 | a team no snapshot match involves gets 0 points and a win percentage of exactly 0 |
| `Features.TotalPriceConcat` | app.py:50 | the price total is additive over concatenated rows |
| `Features.TotalPriceBounds` | app.py:50 | with non-negative prices the total is non-negative and at least every single price |
| `Features.AuctionFeaturesIsolated` | app.py:49-51 | replacing another team's purchase by another team's purchase leaves this team's record unchanged |
| `Features.FeatureTable` | app.py:43-61 | the feature table has exactly one record per roster team |
| `Features.BuildFeatures` | app.py:40-59 | the loop that appends a record per team produces exactly the feature table |
| `Features.FeatureTableTeams` | app.py:43-61 | the i-th record is for the i-th roster team, so no team gets two records |
| `Features.PointsMonotone` | app.py:44-46 | a longer snapshot never lowers a team's played count or points |
| `Features.ThreeMatchScenario` | app.py:44-47 | A beating B twice and losing once gives A 4 points and 2/3, B 2 points and 1/3 |
| `Features.AuctionScenario` | app.py:49-51 | purchases of 90,000,000 and 50,000,000 give 14 crores and one star |
| `Ranking.Label` | app.py:72-73 | every team row gets one probability |
| `Ranking.Insert` | app.py:76 | inserting into a ranking keeps it non-increasing and adds exactly the new row |
| `Ranking.SortByProbability` | app.py:76 | the ranking is a permutation of the rows, in non-increasing probability |
| `Ranking.TopPickIsMaximal` | app.py:76 | the first ranked row has the highest probability, and every ranked row comes from the input |
| `LivePredictions.SeasonAuction` | app.py:31 | the season's auction rows are exactly the table's rows of that year |
| `LivePredictions.TeamsOf` | app.py:72 | the team column has one entry per feature row, the i-th row's team |
| `LivePredictions.GetLivePredictions` | app.py:26-79 | "not enough matches" exactly when the snapshot is empty (with the source's message); a count error exactly when the classifier's output length differs from the roster; otherwise a non-increasing permutation of the roster teams paired with the classifier's probabilities for the feature table |
| `LivePredictions.RankedOncePerTeam` | app.py:41-76 | a ranking has one row per roster team, and a team appears in it exactly when it plays in the season |
| `LivePredictions.AuctionRowIsolated` | app.py:31-51 | changing an auction row that is not this team's for this year leaves the team's features unchanged |
| `SnapshotPoints.Truncate` | app.py:108 | `int()` truncates toward zero |
| `SnapshotPoints.PointsFor` | app.py:106-108 | the league end is T - 4 and the halfway point is its floor half |
| `SnapshotPoints.ThreeQuarterRounding` | app.py:108 | the three-quarter point is 3L/4 rounded toward zero, for both signs of L |
| `SnapshotPoints.PointsOrdered` | app.py:106-108 | with T >= 4: 0 <= halfway <= three quarters <= end of league |
| `SnapshotPoints.PointsWithinSeason` | app.py:106-108 | with T >= 4 each point selects exactly that many matches |
| `SnapshotPoints.ShortSeasonLeagueEnd` | app.py:106 | with T < 4 the league end is negative and, as a slice bound, drops matches from the end (max(0, 2T - 4) remain) |
| `SnapshotPoints.SeventyFourMatchSeason` | app.py:105-108 | a 74-match season gives the points 35, 52 and 70 |

## Left out

- The Streamlit page, sidebar, buttons, result display and top-pick banner (app.py:82-147): presentation.
- `load_data` (app.py:8-22): file loading, date parsing and `st.stop`. Each match row carries its year directly.
- The classifier (app.py:69) is the parameter `classify` of `GetLivePredictions`: a total function
  from the feature table to one number per row, whose internals are not modelled. pandas raises an
  error when its output length differs from the number of rows (app.py:73); `PredictionCountMismatch`
  models that error.
- Reindexing the features by the saved column list (app.py:65): a lookup of names against a schema
  read from disk. A missing column is not modelled.
- Formatting probabilities as percentage strings (app.py:77) and `reset_index` (app.py:79).
- The order of rows with equal probability: pandas' default sort is not stable. `SortByProbability` is
  one sort with the promised properties, and `GetLivePredictions` promises only a permutation in
  non-increasing order.
- Floating point: win percentage, squad cost and `L * 0.75` are exact rationals. For realistic season
  lengths the float product `L * 0.75` is exact, so `int()` gives the same value.
- Prices are whole rupee amounts (`int`). Missing values (NaN) in team, winner or price columns are
  not modelled.
