/** The team calculator (`teamRecord`) and the properties of its record. */
module Team {
  import opened Wrappers
  import opened Seqs
  import opened Text
  import opened Deliveries
  import opened Grouping

  /** The fields of a team record, in the order the source emits them. Rates
      are exact; the source rounds them to two decimals. */
  datatype TeamStats = TeamStats(
    matches: int,
    wins: int,
    losses: int,
    ties: int,
    runs: int,
    wickets: int,
    balls: int,
    runRate: real,
    conRuns: int,
    conWickets: int,
    conBalls: int,
    conRunRate: real,
    winPercent: real,
    title: int)

  /** Rows of matches the team played in, on either side. */
  function PlaysIn(team: string): Ball -> bool
  {
    (b: Ball) => b.team1 == team || b.team2 == team
  }

  /** The `Against` column: the other side of the match. */
  function Against(team: string): Ball -> string
  {
    (b: Ball) => if b.team1 == team then b.team2 else b.team1
  }

  /** `WinningTeam == team`; a missing winner never equals the team. */
  function WonBy(team: string): Ball -> bool
  {
    (b: Ball) => b.winningTeam == Some(team)
  }

  function FinalWonBy(team: string): Ball -> bool
  {
    (b: Ball) => b.matchNumber == "Final" && b.winningTeam == Some(team)
  }

  /** `BattingTeam == team`: the team's batting side; the complement is its
      bowling side. */
  function BattingSide(team: string): Ball -> bool
  {
    (b: Ball) => b.battingTeam == team
  }

  /** Runs per six balls. */
  function PerOver(runs: int, balls: int): real
    requires balls != 0
  {
    runs as real / (balls as real / 6.0)
  }

  function Matches(data: seq<Ball>): int { |Ids(data)| }
  function Wins(team: string, data: seq<Ball>): int { |Ids(Filter(data, WonBy(team)))| }
  function Losses(team: string, data: seq<Ball>): int { |Ids(Filter(data, Not(WonBy(team))))| }
  function Titles(team: string, data: seq<Ball>): int { |Ids(Filter(data, FinalWonBy(team)))| }

  function WinPercent(team: string, data: seq<Ball>): real
  {
    if Matches(data) != 0 then (Wins(team, data) as real / Matches(data) as real) * 100.0 else 0.0
  }

  function Batting(team: string, data: seq<Ball>): seq<Ball> { Filter(data, BattingSide(team)) }
  function Bowling(team: string, data: seq<Ball>): seq<Ball> { Filter(data, Not(BattingSide(team))) }

  function Runs(team: string, data: seq<Ball>): int { Sum(Batting(team, data), TotalRun) }
  function Balls(team: string, data: seq<Ball>): int { |Filter(Batting(team, data), NotWide())| }
  function Wickets(team: string, data: seq<Ball>): int { Sum(Bowling(team, data), WicketFlag) }
  function ConRuns(team: string, data: seq<Ball>): int { Sum(Bowling(team, data), TotalRun) }
  function ConBalls(team: string, data: seq<Ball>): int { |Filter(Bowling(team, data), NotWide())| }
  function ConWickets(team: string, data: seq<Ball>): int { Sum(Batting(team, data), WicketFlag) }

  /** Both rates are computed only when both sides have faced a ball. */
  function RunRate(team: string, data: seq<Ball>): real
  {
    if Balls(team, data) != 0 && ConBalls(team, data) != 0
    then PerOver(Runs(team, data), Balls(team, data)) else 0.0
  }

  function ConRunRate(team: string, data: seq<Ball>): real
  {
    if Balls(team, data) != 0 && ConBalls(team, data) != 0
    then PerOver(ConRuns(team, data), ConBalls(team, data)) else 0.0
  }

  /** `teamRecord(team, data)`. Losses are the matches whose winner is not the
      team, which includes matches without a winner. */
  function TeamRecord(team: string, data: seq<Ball>): TeamStats
  {
    TeamStats(
      Matches(data), Wins(team, data), Losses(team, data),
      Matches(data) - Wins(team, data) - Losses(team, data),
      Runs(team, data), Wickets(team, data), Balls(team, data), RunRate(team, data),
      ConRuns(team, data), ConWickets(team, data), ConBalls(team, data), ConRunRate(team, data),
      WinPercent(team, data), Titles(team, data))
  }

  /** The numeric delta: every field of the overall record minus the same
      field of the before-last record. */
  function TeamDelta(overall: TeamStats, before: TeamStats): TeamStats
  {
    TeamStats(
      overall.matches - before.matches, overall.wins - before.wins,
      overall.losses - before.losses, overall.ties - before.ties,
      overall.runs - before.runs, overall.wickets - before.wickets,
      overall.balls - before.balls, overall.runRate - before.runRate,
      overall.conRuns - before.conRuns, overall.conWickets - before.conWickets,
      overall.conBalls - before.conBalls, overall.conRunRate - before.conRunRate,
      overall.winPercent - before.winPercent, overall.title - before.title)
  }

  // ---------------------------------------------------------------- wins, losses, ties, titles

  /** Wins and Losses together reach every match, so Ties is never positive. */
  lemma WinsAndLosses(team: string, data: seq<Ball>)
    ensures 0 <= Wins(team, data) <= Matches(data)
    ensures 0 <= Losses(team, data) <= Matches(data)
    ensures Wins(team, data) + Losses(team, data) >= Matches(data)
  {
    IdsSplit(data, WonBy(team));
    IdsFilterSubset(data, WonBy(team));
    IdsFilterSubset(data, Not(WonBy(team)));
  }

  /** When each match has one winner cell, Wins and Losses split the matches
      exactly: a match without a winner is a loss. */
  lemma WinsAndLossesSplitMatches(team: string, data: seq<Ball>)
    requires Consistent(data)
    ensures Wins(team, data) + Losses(team, data) == Matches(data)
  {
    WinnerPerMatch(team, data);
    IdsSplit(data, WonBy(team));
  }

  lemma WinnerPerMatch(team: string, data: seq<Ball>)
    requires Consistent(data)
    ensures forall a, b :: a in data && b in data && a.id == b.id ==> WonBy(team)(a) == WonBy(team)(b)
  {
    forall a, b | a in data && b in data && a.id == b.id
      ensures WonBy(team)(a) == WonBy(team)(b)
    {
      assert Meta(a) == Meta(b);
    }
  }

  /** The Ties field is the remainder, zero when each match has one winner cell. */
  lemma TiesRemainder(team: string, data: seq<Ball>)
    ensures TeamRecord(team, data).ties <= 0
    ensures Consistent(data) ==> TeamRecord(team, data).ties == 0
  {
    WinsAndLosses(team, data);
    if Consistent(data) {
      WinsAndLossesSplitMatches(team, data);
    }
  }

  /** A title is a won final, so titles never exceed wins. */
  lemma TitlesAtMostWins(team: string, data: seq<Ball>)
    ensures 0 <= Titles(team, data) <= Wins(team, data)
  {
    FilterFilter(data, WonBy(team), FinalWonBy(team), FinalWonBy(team));
    IdsFilterSubset(Filter(data, WonBy(team)), FinalWonBy(team));
  }

  /** Win % is 0 without matches; otherwise it is wins per hundred matches,
      hence between 0 and 100. */
  lemma WinPercentBounds(team: string, data: seq<Ball>)
    ensures Matches(data) == 0 ==> WinPercent(team, data) == 0.0
    ensures Matches(data) != 0 ==> WinPercent(team, data) * Matches(data) as real == 100.0 * Wins(team, data) as real
    ensures 0.0 <= WinPercent(team, data) <= 100.0
  {
    IdsFilterSubset(data, WonBy(team));
  }

  // ---------------------------------------------------------------- the two sides of the slice

  /** The batting side and the bowling side split every row: their runs,
      wickets and non-wide balls add up to those of the whole slice. */
  lemma SidesCoverSlice(team: string, data: seq<Ball>)
    ensures Runs(team, data) + ConRuns(team, data) == Sum(data, TotalRun)
    ensures Wickets(team, data) + ConWickets(team, data) == Sum(data, WicketFlag)
    ensures Balls(team, data) + ConBalls(team, data) == |Filter(data, NotWide())|
  {
    var side := BattingSide(team);
    SumSplit(data, TotalRun, side);
    SumSplit(data, WicketFlag, side);
    var faced := Filter(data, NotWide());
    CountSplit(faced, side);
    FilterFilter(data, side, NotWide(), (b: Ball) => b.battingTeam == team && b.extra != Wides);
    FilterFilter(data, NotWide(), side, (b: Ball) => b.battingTeam == team && b.extra != Wides);
    FilterFilter(data, Not(side), NotWide(), (b: Ball) => b.battingTeam != team && b.extra != Wides);
    FilterFilter(data, NotWide(), Not(side), (b: Ball) => b.battingTeam != team && b.extra != Wides);
  }

  /** A wide is never a ball faced or bowled; every other delivery is. */
  lemma BallsExcludeOnlyWides(team: string, data: seq<Ball>)
    ensures Balls(team, data) + |Filter(Batting(team, data), Not(NotWide()))| == |Batting(team, data)|
    ensures ConBalls(team, data) + |Filter(Bowling(team, data), Not(NotWide()))| == |Bowling(team, data)|
  {
    CountSplit(Batting(team, data), NotWide());
    CountSplit(Bowling(team, data), NotWide());
  }

  lemma PerOverScales(runs: int, balls: int)
    requires balls != 0
    ensures PerOver(runs, balls) * balls as real == 6.0 * runs as real
  {
    var b := balls as real;
    assert PerOver(runs, balls) == 6.0 * runs as real / b;
  }

  /** Run Rate is 0 unless the team both faced and bowled a ball; otherwise
      it is six times the runs scored per ball faced. */
  lemma RunRateScales(team: string, data: seq<Ball>)
    ensures Balls(team, data) == 0 || ConBalls(team, data) == 0 ==> RunRate(team, data) == 0.0
    ensures Balls(team, data) != 0 && ConBalls(team, data) != 0 ==>
              RunRate(team, data) * Balls(team, data) as real == 6.0 * Runs(team, data) as real
  {
    if Balls(team, data) != 0 && ConBalls(team, data) != 0 {
      PerOverScales(Runs(team, data), Balls(team, data));
    }
  }

  /** Con. Run Rate is 0 unless the team both faced and bowled a ball;
      otherwise it is six times the runs conceded per ball bowled. */
  lemma ConRunRateScales(team: string, data: seq<Ball>)
    ensures Balls(team, data) == 0 || ConBalls(team, data) == 0 ==> ConRunRate(team, data) == 0.0
    ensures Balls(team, data) != 0 && ConBalls(team, data) != 0 ==>
              ConRunRate(team, data) * ConBalls(team, data) as real == 6.0 * ConRuns(team, data) as real
  {
    if Balls(team, data) != 0 && ConBalls(team, data) != 0 {
      PerOverScales(ConRuns(team, data), ConBalls(team, data));
    }
  }

  // ---------------------------------------------------------------- grouping and delta

  /** Every match has one opponent and one season, so the per-opponent and
      the per-season match counts each add up to the overall count. */
  lemma GroupsCoverMatches(team: string, data: seq<Ball>, opponents: seq<string>, seasons: seq<string>)
    requires Consistent(data)
    requires Distinct(opponents) && Elements(opponents) == Keys(data, Against(team))
    requires Distinct(seasons) && Elements(seasons) == Keys(data, SeasonOf)
    ensures MatchesOver(data, Against(team), opponents) == Matches(data)
    ensures MatchesOver(data, SeasonOf, seasons) == Matches(data)
  {
    assert forall a, b :: a in data && b in data && a.id == b.id ==> Meta(a) == Meta(b);
    MatchesAddUp(data, Against(team), opponents);
    MatchesAddUp(data, SeasonOf, seasons);
  }

  /** Sums over one side of the slice split into before-last and last match. */
  lemma SideSumBeforeLast(data: seq<Ball>, side: Ball -> bool, f: Ball -> int)
    requires data != []
    ensures Sum(Filter(data, side), f)
         == Sum(Filter(BeforeLast(data), side), f) + Sum(Filter(LastMatch(data), side), f)
  {
    var m := MaxId(data);
    var mine := Filter(data, side);
    SumSplit(mine, f, BeforeMatch(m));
    FilterFilter(data, side, BeforeMatch(m), (b: Ball) => side(b) && b.id < m);
    FilterFilter(data, BeforeMatch(m), side, (b: Ball) => side(b) && b.id < m);
    FilterFilter(data, side, Not(BeforeMatch(m)), (b: Ball) => side(b) && b.id == m);
    FilterFilter(data, InMatch(m), side, (b: Ball) => side(b) && b.id == m);
  }

  /** The delta of a non-empty team slice reflects exactly its latest match:
      one match more and the runs the team scored and conceded in it. */
  lemma DeltaIsLatestMatch(team: string, data: seq<Ball>)
    requires data != []
    ensures Matches(data) - Matches(BeforeLast(data)) == 1
    ensures Runs(team, data) - Runs(team, BeforeLast(data))
            == Sum(Filter(LastMatch(data), BattingSide(team)), TotalRun)
    ensures ConRuns(team, data) - ConRuns(team, BeforeLast(data))
            == Sum(Filter(LastMatch(data), Not(BattingSide(team))), TotalRun)
  {
    BeforeLastDropsLastMatch(data);
    SideSumBeforeLast(data, BattingSide(team), TotalRun);
    SideSumBeforeLast(data, Not(BattingSide(team)), TotalRun);
  }

  /** When each match has one winner cell, the latest match adds exactly one
      win or one loss. */
  lemma DeltaResult(team: string, data: seq<Ball>)
    requires data != [] && Consistent(data)
    ensures (Wins(team, data) - Wins(team, BeforeLast(data)))
          + (Losses(team, data) - Losses(team, BeforeLast(data))) == 1
  {
    BeforeLastDropsLastMatch(data);
    WinsAndLossesSplitMatches(team, data);
    assert Consistent(BeforeLast(data));
    WinsAndLossesSplitMatches(team, BeforeLast(data));
  }
}
