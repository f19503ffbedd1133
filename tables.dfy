/** The two tables the dashboard works on: one row per match, one row per auction purchase. */
module Tables {

  type Team = string

  /** One row of the matches table: the season year, the two sides and the winner. */
  datatype Match = Match(year: int, team1: Team, team2: Team, winner: Team)

  /** One row of the auction table: the season year, the buying team and the price paid (in rupees). */
  datatype AuctionRow = AuctionRow(year: int, team: Team, price: int)

  /** True when `team` is one of the two sides of `m`. */
  predicate Involves(m: Match, team: Team)
  {
    m.team1 == team || m.team2 == team
  }
}
