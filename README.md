# IPL statistics engine, modelled in Dafny

This project models the statistics engine of the IPL dashboard
(`1_IPL_Streamlit_Dashboard/ipl.py`): the `IPL` object, which holds the match
table and the ball-by-ball table joined with its match columns. The model covers:

- **Preparation.** Split-year season labels are canonicalised (`2007/08` →
  `2008`, `2009/10` → `2010`, `2020/21` → `2020`). Super-over deliveries are
  dropped.
- **Listing endpoints.** Seasons, teams, all players and a team's players.
  Player lists are read from the `['a', 'b']` literals the match table stores.
- **The three calculators.** `teamRecord`, `batsmanRecord` and `bowlerRecord`
  are pure functions over a sequence of deliveries.
- **The three record endpoints.** Each one:
  1. checks the team or player name, then the season labels, then whether
     the season list is empty;
  2. keeps only the requested seasons, unless `'All'` is among them;
  3. builds the overall record, one record per opponent and one per season
     (a grouping loop that fills a map), and the delta. The delta is the
     overall record minus the record without the most recent match.
- **The comparison endpoint.** It runs both player endpoints for every
  season.

Modules:
- `Seqs`: filters, sums, columns and arg-max over sequences.
- `Text`: decimal text, Python-style `split`/`join`/`strip`, and sorted
  de-duplication like `np.unique`.
- `Deliveries`: the delivery row, the row masks, season canonicalisation and
  the "before the latest match" slice.
- `Grouping`: group-by.
- `Team`, `Batting` and `Bowling`: the three calculators.
- `Ipl`: the `IPL` class and the resolvers.

Pure code is written as functions and lemmas. The object is a class:
- its fields are the two tables;
- its constructor and `DataOptimization` modify them;
- its endpoints are methods, each proved equal to a specification function
  (`TeamResponse`, `BatsmanResponse`, `BowlerResponse`, `Compared`) or proved
  to satisfy the listing properties outright.

Behaviours of the code that the model keeps and the lemmas make visible:

- **Ties is always 0 on consistent data.** `teamRecord` counts a loss as
  "the winner is not this team", so a match without a winner is a loss.
  `Team.TiesRemainder` proves this. `Team.DeltaResult` proves that the latest
  match always moves Wins or Losses by exactly one.
- **Outs differ between the overall batting record and the others.** The
  overall record counts Outs over every selected delivery. That includes
  run-outs at the non-striker's end (`Batting.OutsIncludePartnerBalls`). The
  before-last record and the per-opponent and per-season records count only
  the batter's own deliveries. So the Not Out and Average deltas can also
  reflect non-striker dismissals from earlier matches.
- **A split-year season in a request is refused.** After preparation a label
  such as `2007/08` is no longer a season of the table, so the request is
  refused with the invalid-season error rather than treated as `2008`
  (`Ipl.SplitYearRequestRefused`).
- **Rates are exact.** Rates are rationals; the code rounds them to two
  places.

## Model

| member | source | states |
|---|---|---|
| Deliveries.CanonicalSeason | 1_IPL_Streamlit_Dashboard/ipl.py:45-47 | the three split-year labels become their single year, every other label is unchanged, and no split-year label is ever returned |
| Deliveries.CanonicalSeasonIdempotent | 1_IPL_Streamlit_Dashboard/ipl.py:45-47 | canonicalising twice is the same as once |
| Deliveries.CanonicalSeasonMerges | 1_IPL_Streamlit_Dashboard/ipl.py:45-47 | each split-year label ends up equal to its single-year label |
| Deliveries.MaxId | 1_IPL_Streamlit_Dashboard/ipl.py:108 | `ID.max()` is an id of the slice and no row has a larger one |
| Deliveries.BeforeLast | 1_IPL_Streamlit_Dashboard/ipl.py:108 | `df[df.ID < df.ID.max()]`: the rows whose id is below the slice's largest, empty for an empty slice; `BeforeLastDropsLastMatch`, `SumBeforeLast` and `FilterBeforeLast` constrain it |
| Deliveries.BeforeLastDropsLastMatch | 1_IPL_Streamlit_Dashboard/ipl.py:108 | `ID < ID.max()` keeps exactly the rows of other matches, removes exactly one match id and lowers the match count by one |
| Deliveries.SumBeforeLast | 1_IPL_Streamlit_Dashboard/ipl.py:108 | any column sum splits into the before-last part plus the latest match's part |
| Deliveries.FilterBeforeLast | 1_IPL_Streamlit_Dashboard/ipl.py:216 | the rows of any earlier match are unchanged by dropping the latest one |
| Grouping.GroupRecords | 1_IPL_Streamlit_Dashboard/ipl.py:117-123 | the grouping loop's map has one key per label present, and each value is the calculator applied to exactly that label's rows |
| Grouping.MatchesAddUp | 1_IPL_Streamlit_Dashboard/ipl.py:117-123 | when a label is fixed per match, the groups' distinct match counts add up to the slice's match count |
| Team.WinsAndLosses | 1_IPL_Streamlit_Dashboard/ipl.py:151-153 | Wins and Losses each lie between 0 and Matches and together cover every match |
| Team.WinsAndLossesSplitMatches | 1_IPL_Streamlit_Dashboard/ipl.py:151-153 | with one winner per match, Wins + Losses = Matches |
| Team.TiesRemainder | 1_IPL_Streamlit_Dashboard/ipl.py:154 | Ties = Matches − Wins − Losses is never positive and is 0 on consistent data |
| Team.TeamRecord | 1_IPL_Streamlit_Dashboard/ipl.py:150-186 | `teamRecord`: distinct matches, wins, losses, ties as the remainder, titles, Win %, and the runs, wickets, non-wide balls and run rate of each side; `WinsAndLosses`, `TiesRemainder`, `TitlesAtMostWins`, `WinPercentBounds`, `SidesCoverSlice`, `BallsExcludeOnlyWides`, `RunRateScales` and `ConRunRateScales` constrain it |
| Team.Against | 1_IPL_Streamlit_Dashboard/ipl.py:106 | the `Against` column: Team2 on a row where the team is Team1, Team1 otherwise; `GroupsCoverMatches` shows the groups it labels cover the matches |
| Team.TeamDelta | 1_IPL_Streamlit_Dashboard/ipl.py:114-115 | each field of the overall record minus the same field of the before-last record; `DeltaIsLatestMatch` and `DeltaResult` say what that is |
| Team.TitlesAtMostWins | 1_IPL_Streamlit_Dashboard/ipl.py:155 | Titles (finals won) is between 0 and Wins |
| Team.WinPercentBounds | 1_IPL_Streamlit_Dashboard/ipl.py:156 | Win % is 0 with no match, otherwise 100 × Wins / Matches, always within 0..100 |
| Team.SidesCoverSlice | 1_IPL_Streamlit_Dashboard/ipl.py:158-166 | the batting and bowling sides split the slice: runs, wickets and non-wide balls scored plus conceded equal the slice totals |
| Team.BallsExcludeOnlyWides | 1_IPL_Streamlit_Dashboard/ipl.py:162-165 | Balls and Con. Balls leave out exactly the wides of their side |
| Team.PerOverScales | 1_IPL_Streamlit_Dashboard/ipl.py:168 | `runs / (balls / 6)` times balls is 6 × runs |
| Team.RunRateScales | 1_IPL_Streamlit_Dashboard/ipl.py:168 | Run Rate is 0 unless the team both faced and bowled a ball; otherwise Run Rate × Balls = 6 × Runs |
| Team.ConRunRateScales | 1_IPL_Streamlit_Dashboard/ipl.py:169 | Con. Run Rate is 0 unless the team both faced and bowled a ball; otherwise Con. Run Rate × Con. Balls = 6 × Con. Runs |
| Team.GroupsCoverMatches | 1_IPL_Streamlit_Dashboard/ipl.py:117-123 | per-opponent Matches and per-season Matches each add up to the overall Matches |
| Team.DeltaIsLatestMatch | 1_IPL_Streamlit_Dashboard/ipl.py:108-115 | the delta has Matches 1, and Runs and Con. Runs equal to the latest match's runs for each side |
| Team.DeltaResult | 1_IPL_Streamlit_Dashboard/ipl.py:108-115 | on consistent data the latest match adds exactly one to Wins or to Losses |
| Batting.OutsIncludePartnerBalls | 1_IPL_Streamlit_Dashboard/ipl.py:259 | Outs counts dismissals on every row of the slice, those on faced balls plus those on other rows, so at least the faced-ball ones |
| Batting.AverageGuarded | 1_IPL_Streamlit_Dashboard/ipl.py:268 | Average is 0 with no dismissal, otherwise Runs / Outs |
| Batting.StrikeRateGuarded | 1_IPL_Streamlit_Dashboard/ipl.py:269-270 | Strike Rate is 0 with no non-wide ball, otherwise 100 × Runs per non-wide ball |
| Batting.BallsFacedExcludeOnlyWides | 1_IPL_Streamlit_Dashboard/ipl.py:269 | the balls counted for Strike Rate are the faced rows minus exactly the wides |
| Batting.BoundariesWithinRuns | 1_IPL_Streamlit_Dashboard/ipl.py:265-267 | fours and sixes need `non_boundary == 0`, and 4 × Fours + 6 × Sixes never exceeds Runs |
| Batting.MilestonesWithinInnings | 1_IPL_Streamlit_Dashboard/ipl.py:272-274 | Fifties and Hundreds are per-match counts in disjoint bands, so together they are at most Innings |
| Batting.TopMatchIsBest | 1_IPL_Streamlit_Dashboard/ipl.py:278-279 | the match chosen for Highest Score is one of the batter's matches with the largest total |
| Batting.ScoreText | 1_IPL_Streamlit_Dashboard/ipl.py:224 | removing `*` from a score text and reading it as a number gives the score back |
| Batting.HighestScore | 1_IPL_Streamlit_Dashboard/ipl.py:275-287 | `nan` when no ball was faced, otherwise the largest match total as text, with `*` when the batter was not out in that match; `HighestScoreIsBestMatch` and `ScoreOf` constrain it |
| Batting.BatsmanRecord | 1_IPL_Streamlit_Dashboard/ipl.py:258-305 | `batsmanRecord`: Outs over the whole slice, and innings, runs, balls, boundaries, milestones, Highest Score and Man of Match over the batter's rows; `OutsIncludePartnerBalls`, `AverageGuarded`, `StrikeRateGuarded`, `BallsFacedExcludeOnlyWides`, `BoundariesWithinRuns` and `MilestonesWithinInnings` constrain it |
| Batting.Delta | 1_IPL_Streamlit_Dashboard/ipl.py:222-226 | each numeric field minus the before-last one, with the Highest Score delta read from the text with `*` removed; `DeltaIsLatestInnings` and `HighestScoreDelta` constrain it |
| Batting.HighestScoreIsBestMatch | 1_IPL_Streamlit_Dashboard/ipl.py:276-287 | Highest Score is "nan" with no faced ball, otherwise the best match total, marked `*` exactly when no faced ball of that match dismissed the batter |
| Batting.DeltaIsLatestInnings | 1_IPL_Streamlit_Dashboard/ipl.py:215-226 | against the batter's rows without the latest match, the delta has Innings 1 and Runs equal to the runs of that match |
| Batting.BestBeforeLastAtMost | 1_IPL_Streamlit_Dashboard/ipl.py:216 | dropping the latest match never raises the best match total |
| Batting.ScoreOf | 1_IPL_Streamlit_Dashboard/ipl.py:224 | the Highest Score text reads back as the best match total |
| Batting.HighestScoreDelta | 1_IPL_Streamlit_Dashboard/ipl.py:222-224 | the Highest Score delta is NaN when the batter faced no ball or faced balls in one match only, and a non-negative number otherwise |
| Batting.SeasonsCoverInnings | 1_IPL_Streamlit_Dashboard/ipl.py:232-234 | the per-season innings add up to the batter's innings |
| Batting.GroupInnings | 1_IPL_Streamlit_Dashboard/ipl.py:228-230 | within a group of the batter's own rows, Innings is the group's match count |
| Bowling.AttributionBounds | 1_IPL_Streamlit_Dashboard/ipl.py:329-338 | `bowler_run` lies between 0 and `total_run`, and `isBowlerWicket` between 0 and `isWicketDelivery`, equal to it for the six bowler kinds and 0 for a run-out |
| Bowling.BowlerRun | 1_IPL_Streamlit_Dashboard/ipl.py:329-333 | `bowler_run`: 0 on penalty, leg-bye and bye deliveries, `total_run` otherwise; `AttributionBounds` and `ChargedWithinTotals` constrain it |
| Bowling.BowlerWicket | 1_IPL_Streamlit_Dashboard/ipl.py:335-339 | `isBowlerWicket`: `isWicketDelivery` for the six dismissal kinds credited to the bowler, 0 otherwise; `AttributionBounds` and `ChargedWithinTotals` constrain it |
| Bowling.ChargedWithinTotals | 1_IPL_Streamlit_Dashboard/ipl.py:389-394 | bowler Runs lie between 0 and the `total_run` sum of the bowler's rows, and Wickets between 0 and the wicket deliveries |
| Bowling.LegalBallsExcludeWidesAndNoBalls | 1_IPL_Streamlit_Dashboard/ipl.py:388 | the legal-ball count leaves out exactly the wides and no-balls |
| Bowling.EconomyGuarded | 1_IPL_Streamlit_Dashboard/ipl.py:390 | Economy is 0 with no legal ball, otherwise 6 × Runs per legal ball |
| Bowling.AverageGuarded | 1_IPL_Streamlit_Dashboard/ipl.py:395 | Average is 0 with no wicket, otherwise Runs / Wickets |
| Bowling.StrikeRateGuarded | 1_IPL_Streamlit_Dashboard/ipl.py:396 | Strike Rate is 0 with no wicket, otherwise 6 × legal balls per wicket |
| Bowling.PerMatchCountsWithinInnings | 1_IPL_Streamlit_Dashboard/ipl.py:398-407 | 3+W and Man of Match count distinct matches, so each is at most Innings |
| Bowling.BestMatchIsBest | 1_IPL_Streamlit_Dashboard/ipl.py:401 | the match first after sorting by wickets descending and runs ascending ranks at or above every other match |
| Bowling.BestFigureDetermined | 1_IPL_Streamlit_Dashboard/ipl.py:401-402 | every match that may come first has the same wickets and runs, so the fraction does not depend on the sort's tie order |
| Bowling.FigureRoundTrip | 1_IPL_Streamlit_Dashboard/ipl.py:402-405 | writing `w/r` and splitting it on `/` gives back the two integers |
| Bowling.BestFigureIsBest | 1_IPL_Streamlit_Dashboard/ipl.py:398-402 | the fraction is "0/0" with no delivery, otherwise the wickets and runs of a match with the most wickets and, among those, the fewest runs |
| Bowling.BestFigureValue | 1_IPL_Streamlit_Dashboard/ipl.py:404-405 | Best Figure is wickets / runs of the fraction, or 0 when its runs part is 0 |
| Bowling.BestFigureFraction | 1_IPL_Streamlit_Dashboard/ipl.py:398-402 | `w/r` of the first match under wickets descending and runs ascending, `0/0` when the bowler bowled no ball; `BestFigureIsBest`, `BestFigureDetermined` and `FigureRoundTrip` constrain it |
| Bowling.FigureValue | 1_IPL_Streamlit_Dashboard/ipl.py:404-405 | the fraction's wickets divided by its runs, 0 when the runs part is 0; `BestFigureValue` constrains it |
| Bowling.BowlerRecord | 1_IPL_Streamlit_Dashboard/ipl.py:384-421 | `bowlerRecord`: innings, legal balls, runs and wickets charged, economy, average, strike rate, 3+W, best figure and Man of Match over the bowler's rows; `ChargedWithinTotals`, `LegalBallsExcludeWidesAndNoBalls`, `EconomyGuarded`, `AverageGuarded`, `StrikeRateGuarded` and `PerMatchCountsWithinInnings` constrain it |
| Bowling.Delta | 1_IPL_Streamlit_Dashboard/ipl.py:347-352 | each numeric field minus the before-last one, and the fraction delta as the differences of its two parts; `FigureDeltaParts` and `DeltaIsLatestInnings` constrain it |
| Bowling.FigureDeltaParts | 1_IPL_Streamlit_Dashboard/ipl.py:348-350 | the fraction delta reads back as the wicket difference and the run difference |
| Bowling.DeltaIsLatestInnings | 1_IPL_Streamlit_Dashboard/ipl.py:340-352 | against the bowler's rows without the latest match, the delta has Innings 1, and Wickets and Runs equal to those charged in that match |
| Ipl.PreparedRows | 1_IPL_Streamlit_Dashboard/ipl.py:45-49 | the prepared table holds exactly the innings-1 and innings-2 rows with canonical seasons |
| Ipl.Prepared | 1_IPL_Streamlit_Dashboard/ipl.py:45-49 | the joined table with canonical seasons and only innings 1 and 2; `PreparedRows` and `PreparedIdempotent` constrain it |
| Ipl.PreparedIdempotent | 1_IPL_Streamlit_Dashboard/ipl.py:45-49 | preparing prepared data changes nothing |
| Ipl.NoSplitYearLabels | 1_IPL_Streamlit_Dashboard/ipl.py:45-47 | no match of the prepared table carries a split-year season |
| Ipl.ParseNames | 1_IPL_Streamlit_Dashboard/ipl.py:67 | `lstrip("['").rstrip("']").split("', '")` of a player-list cell; `ParseListText` shows it reads a list literal back |
| Ipl.ParseListText | 1_IPL_Streamlit_Dashboard/ipl.py:67 | the strip and split of a player-list literal gives back the listed names (names without commas, and without quotes or brackets at the outer ends) |
| Ipl.RosterMembers | 1_IPL_Streamlit_Dashboard/ipl.py:67 | the concatenated player lists hold exactly the names listed in some match |
| Ipl.SquadMembers | 1_IPL_Streamlit_Dashboard/ipl.py:78-80 | a team's concatenated lists hold exactly the names listed on the team's own side of its matches |
| Ipl.AllIn | 1_IPL_Streamlit_Dashboard/ipl.py:93 | `all(...)` is true exactly when every requested label is in the valid list |
| Ipl.Selected | 1_IPL_Streamlit_Dashboard/ipl.py:98-103 | no filter when 'All' is requested, otherwise the rows whose season is requested; `SelectedRows` and `AllDisablesFilter` constrain it |
| Ipl.SelectedRows | 1_IPL_Streamlit_Dashboard/ipl.py:98-103 | with 'All' every row is kept, otherwise exactly the rows of the requested seasons |
| Ipl.AllDisablesFilter | 1_IPL_Streamlit_Dashboard/ipl.py:98-103 | a valid request naming 'All' anywhere answers as ['All'] does, for all three endpoints |
| Ipl.ErrorPrecedence | 1_IPL_Streamlit_Dashboard/ipl.py:87-99 | for the team, batter and bowler endpoints alike: an unknown name is reported whatever the seasons, an unknown season comes next, and an empty list gives the degenerate envelope |
| Ipl.TeamResponse | 1_IPL_Streamlit_Dashboard/ipl.py:87-148 | `teamRecord_API` as a value: the name error, the season error, the empty-request envelope, then the report over the selected rows; `ErrorPrecedence` and `AllDisablesFilter` constrain it, and `TeamDeltaOneMatch`, `TeamGroupsAddUp` and `TeamMapsAddUp` constrain its report |
| Ipl.BatsmanResponse | 1_IPL_Streamlit_Dashboard/ipl.py:190-256 | `batsmanRecord_API` as a value, with the same checks in the same order; `ErrorPrecedence`, `AllDisablesFilter` and `DefaultSeasonsUnfiltered` constrain it |
| Ipl.BowlerResponse | 1_IPL_Streamlit_Dashboard/ipl.py:309-382 | `bowlerRecord_API` as a value, with the same checks in the same order; `ErrorPrecedence`, `AllDisablesFilter` and `DefaultSeasonsUnfiltered` constrain it |
| Ipl.BowlingTeam | 1_IPL_Streamlit_Dashboard/ipl.py:208-213 | the bowling side of a row: Team2 when the batting side is Team1, Team1 otherwise; the batter's per-opponent groups are labelled by it |
| Ipl.SplitYearRequestRefused | 1_IPL_Streamlit_Dashboard/ipl.py:92-94 | after preparation, a request for "2007/08" from a known team is refused as an invalid season |
| Ipl.SplitYearNotASeason | 1_IPL_Streamlit_Dashboard/ipl.py:45-47 | "2007/08" is not a valid season label of a canonicalised match table |
| Ipl.TeamDeltaOneMatch | 1_IPL_Streamlit_Dashboard/ipl.py:105-115 | a team report's delta has Matches 1 and Wins + Losses 1 |
| Ipl.TeamGroupsAddUp | 1_IPL_Streamlit_Dashboard/ipl.py:117-123 | in a team report, the distinct matches of the per-opponent row groups, and those of the per-season row groups, each add up to the overall Matches |
| Ipl.TeamMapsAddUp | 1_IPL_Streamlit_Dashboard/ipl.py:117-123 | in a team report, the Matches values of the per-opponent map, and those of the per-season map, each add up to the overall Matches |
| Ipl.DefaultSeasonsUnfiltered | 1_IPL_Streamlit_Dashboard/ipl.py:190 | for a known player, the default season list gives the report over the whole table |
| Ipl.ComparedBatsmen | 1_IPL_Streamlit_Dashboard/ipl.py:432-434 | the comparison's batting map has one entry per named player, each their unfiltered batting report |
| Ipl.ComparedBowlers | 1_IPL_Streamlit_Dashboard/ipl.py:432-434 | the comparison's bowling map has one entry per named player, each their unfiltered bowling report |
| Ipl.IPL.CompareAll | 1_IPL_Streamlit_Dashboard/ipl.py:431-436 | the comparison loop builds, player by player, the maps `Compared` describes |
| Ipl.IPL.constructor | 1_IPL_Streamlit_Dashboard/ipl.py:14-24 | the object holds the canonicalised match table and the prepared joined table |
| Ipl.IPL.DataOptimization | 1_IPL_Streamlit_Dashboard/ipl.py:26-49 | seasons become canonical in both tables and super-over deliveries are dropped |
| Ipl.IPL.AllSeasonsAPI | 1_IPL_Streamlit_Dashboard/ipl.py:53-55 | 'All' comes first, then the table's distinct seasons in ascending order; the listed labels are exactly the valid ones; the total is the list's length |
| Ipl.IPL.AllTeamsAPI | 1_IPL_Streamlit_Dashboard/ipl.py:57-61 | the distinct teams of either side, in ascending order, with their count |
| Ipl.IPL.AllPlayersAPI | 1_IPL_Streamlit_Dashboard/ipl.py:63-70 | the distinct players listed for either side of any match, in ascending order, with their count |
| Ipl.IPL.TeamPlayersAPI | 1_IPL_Streamlit_Dashboard/ipl.py:72-83 | an unknown team is an error; otherwise the distinct players the team fielded, in ascending order, with their count |
| Ipl.IPL.TeamRecordAPI | 1_IPL_Streamlit_Dashboard/ipl.py:87-148 | the answer is `TeamResponse`: validation in order, season selection, overall record, per-opponent and per-season maps, and delta |
| Ipl.IPL.BatsmanRecordAPI | 1_IPL_Streamlit_Dashboard/ipl.py:190-256 | the answer is `BatsmanResponse`: overall over all selected rows; groups by bowling side and season, and the before-last record, over the batter's own rows |
| Ipl.IPL.BowlerRecordAPI | 1_IPL_Streamlit_Dashboard/ipl.py:309-382 | the answer is `BowlerResponse`: overall record; groups by batting side and season, and the before-last record, over the bowler's rows |
| Ipl.IPL.PlayerComparisonAPI | 1_IPL_Streamlit_Dashboard/ipl.py:425-436 | any unknown player gives the error; otherwise both endpoints' answers for every season, keyed by player |

## Left out

- Reading the CSV files, the dtype casts, and the merge of deliveries with match columns are not modelled. The joined table is a constructor argument, and preparation canonicalises its season column as the merge would after the match table is canonicalised. That agrees with the merge only when each joined row carries its match's season from the match table. The constructor takes the two tables independently and does not require this, so the model does not promise that the seasons of the two tables agree.
- The object counter and its printed message are not modelled: they are output only.
- The `help` texts of the record answers are not modelled: they are constant prose.
- `round(…, 2)` on rates is not modelled: rates are exact rationals.
- Python floats for the Highest Score delta are modelled as an integer, or `None` for NaN.
- The check that `seasons` is a list is not modelled: the parameter is always a sequence of labels.
- Columns that may be missing (`player_out`, `WinningTeam`, `Player_of_Match`) are `Option` values.
- Other NaN cells, such as a missing player list, are not modelled.
- Ipl.IPL.TeamPlayersAPI: for a team that appears only as Team1 or only as Team2, the source's `.sum()` over the empty side is the integer 0, and adding a list to it raises `TypeError`, so the source gives no answer. The model returns `Ok` with the players of the side the team did play on; exceptions are not modelled.
- Ipl.IPL.AllPlayersAPI: on a table with no match, the source's two `.sum()` calls give the integers 0, and `np.unique(0 + 0)` answers `players [0]` with `total_players 1`. The model answers an empty listing, because a player is a string and the integer 0 is not one.
- `groupby(..., observed=False)` over categorical labels can add empty groups for unused categories. This is not modelled: the labels here are those present in the rows.
- Batting.HighestScoreIsBestMatch: when several matches tie for the best total, the source's sort may put any of them first. The model picks the earliest, and the `*` marker is proved only for the match it picks.
- The string label `'All'` appearing as a real season in the table is not modelled separately.
- `app.py`, `api.py` and the census dashboard are not part of this model.
