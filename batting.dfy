/** The batter calculator (`batsmanRecord`) and the properties of its record. */
module Batting {
  import opened Wrappers
  import opened Seqs
  import opened Text
  import opened Deliveries
  import opened Grouping

  /** The fields of a batter record, in the order the source emits them.
      `highestScore` is text: the best match total, with a `*` when the batter
      was not dismissed in that match, or "nan" when the batter faced no ball. */
  datatype BatsmanStats = BatsmanStats(
    innings: int,
    runs: int,
    notOut: int,
    highestScore: string,
    fifties: int,
    hundreds: int,
    fours: int,
    sixes: int,
    average: real,
    strikeRate: real,
    manOfMatch: int)

  /** The delta record: numeric differences, and for Highest Score the
      difference of the two scores with the `*` removed (`None` is NaN). */
  datatype BatsmanDelta = BatsmanDelta(
    innings: int,
    runs: int,
    notOut: int,
    highestScore: Option<int>,
    fifties: int,
    hundreds: int,
    fours: int,
    sixes: int,
    average: real,
    strikeRate: real,
    manOfMatch: int)

  /** `batter == name`: deliveries the batter faced. */
  function Faced(name: string): Ball -> bool
  {
    (b: Ball) => b.batter == name
  }

  function FacedRows(name: string, df: seq<Ball>): seq<Ball> { Filter(df, Faced(name)) }

  /** Rows of the whole slice on which the batter is the dismissed player,
      including a run-out at the non-striker's end. */
  function Outs(name: string, df: seq<Ball>): int { |Filter(df, OutIs(name))| }

  function Innings(name: string, df: seq<Ball>): int { |Ids(FacedRows(name, df))| }
  function Runs(name: string, df: seq<Ball>): int { Sum(FacedRows(name, df), BatsmanRun) }
  function Fours(name: string, df: seq<Ball>): int { |Filter(FacedRows(name, df), BoundaryFour())| }
  function Sixes(name: string, df: seq<Ball>): int { |Filter(FacedRows(name, df), BoundarySix())| }

  /** Balls faced for the strike rate: every faced delivery except wides. */
  function BallsFaced(name: string, df: seq<Ball>): int { |Filter(FacedRows(name, df), NotWide())| }

  function Average(name: string, df: seq<Ball>): real
  {
    if Outs(name, df) != 0 then Runs(name, df) as real / Outs(name, df) as real else 0.0
  }

  function StrikeRate(name: string, df: seq<Ball>): real
  {
    if BallsFaced(name, df) != 0
    then (Runs(name, df) as real / BallsFaced(name, df) as real) * 100.0 else 0.0
  }

  /** The runs a batter made in match `id` (a group of `groupby('ID').sum()`). */
  function MatchRuns(rows: seq<Ball>, id: int): (r: int)
    ensures r >= 0
  {
    SumNonNegative(Filter(rows, InMatch(id)), BatsmanRun);
    Sum(Filter(rows, InMatch(id)), BatsmanRun)
  }

  function RunsIn(rows: seq<Ball>): int -> int
  {
    (id: int) => MatchRuns(rows, id)
  }

  function Fifties(name: string, df: seq<Ball>): int
  {
    var f := FacedRows(name, df);
    |set id | id in Ids(f) && 50 <= MatchRuns(f, id) < 100|
  }

  function Hundreds(name: string, df: seq<Ball>): int
  {
    var f := FacedRows(name, df);
    |set id | id in Ids(f) && MatchRuns(f, id) >= 100|
  }

  /** A match of highest total. The source takes the first row of a sort that
      is not stable, so which of several tied matches it picks is unspecified;
      this one keeps the earliest. */
  function TopMatch(rows: seq<Ball>): int
    requires rows != []
  {
    ArgMax(Column(rows, BallId), RunsIn(rows))
  }

  /** Some faced delivery of match `id` dismissed the batter. */
  predicate DismissedIn(name: string, rows: seq<Ball>, id: int)
  {
    exists b :: b in rows && b.id == id && b.playerOut == Some(name)
  }

  function HighestScore(name: string, df: seq<Ball>): string
  {
    var f := FacedRows(name, df);
    if f == [] then "nan"
    else
      var id := TopMatch(f);
      NatText(MatchRuns(f, id)) + (if DismissedIn(name, f, id) then "" else "*")
  }

  function ManOfMatch(name: string, df: seq<Ball>): int
  {
    |Ids(Filter(FacedRows(name, df), PlayerOfMatchIs(name)))|
  }

  /** `batsmanRecord(name, df)`. */
  function BatsmanRecord(name: string, df: seq<Ball>): BatsmanStats
  {
    BatsmanStats(
      Innings(name, df), Runs(name, df), Innings(name, df) - Outs(name, df),
      HighestScore(name, df), Fifties(name, df), Hundreds(name, df),
      Fours(name, df), Sixes(name, df), Average(name, df), StrikeRate(name, df),
      ManOfMatch(name, df))
  }

  /** `float(s.replace('*', ''))` for the texts Highest Score takes; "nan"
      and anything that is not a number give `None`. */
  function ScoreValue(s: string): Option<int>
  {
    match ParseNat(Remove(s, '*'))
    case Some(n) => Some(n)
    case None => None
  }

  function ScoreDelta(overall: string, before: string): Option<int>
  {
    match (ScoreValue(overall), ScoreValue(before))
    case (Some(x), Some(y)) => Some(x - y)
    case _ => None
  }

  /** Every field of the overall record minus the before-last one. */
  function Delta(overall: BatsmanStats, before: BatsmanStats): BatsmanDelta
  {
    BatsmanDelta(
      overall.innings - before.innings, overall.runs - before.runs,
      overall.notOut - before.notOut, ScoreDelta(overall.highestScore, before.highestScore),
      overall.fifties - before.fifties, overall.hundreds - before.hundreds,
      overall.fours - before.fours, overall.sixes - before.sixes,
      overall.average - before.average, overall.strikeRate - before.strikeRate,
      overall.manOfMatch - before.manOfMatch)
  }

  // ---------------------------------------------------------------- counts and rates

  /** Outs counts dismissals on every row of the slice: those on balls the
      batter faced plus those on balls a partner faced. */
  lemma OutsIncludePartnerBalls(name: string, df: seq<Ball>)
    ensures Outs(name, df) == Outs(name, FacedRows(name, df)) + Outs(name, Filter(df, Not(Faced(name))))
    ensures Outs(name, df) >= Outs(name, FacedRows(name, df))
  {
    var out := Filter(df, OutIs(name));
    CountSplit(out, Faced(name));
    FilterFilter(df, OutIs(name), Faced(name), (b: Ball) => b.playerOut == Some(name) && b.batter == name);
    FilterFilter(df, Faced(name), OutIs(name), (b: Ball) => b.playerOut == Some(name) && b.batter == name);
    FilterFilter(df, OutIs(name), Not(Faced(name)), (b: Ball) => b.playerOut == Some(name) && b.batter != name);
    FilterFilter(df, Not(Faced(name)), OutIs(name), (b: Ball) => b.playerOut == Some(name) && b.batter != name);
  }

  /** Average is 0 without a dismissal, otherwise runs per dismissal. */
  lemma AverageGuarded(name: string, df: seq<Ball>)
    ensures Outs(name, df) == 0 ==> Average(name, df) == 0.0
    ensures Outs(name, df) != 0 ==> Average(name, df) * Outs(name, df) as real == Runs(name, df) as real
  {
    if Outs(name, df) != 0 {
      RatioScales(Runs(name, df), Outs(name, df), 1.0);
    }
  }

  /** Strike Rate is 0 without a non-wide ball faced, otherwise runs per
      hundred such balls. */
  lemma StrikeRateGuarded(name: string, df: seq<Ball>)
    ensures BallsFaced(name, df) == 0 ==> StrikeRate(name, df) == 0.0
    ensures BallsFaced(name, df) != 0 ==>
              StrikeRate(name, df) * BallsFaced(name, df) as real == 100.0 * Runs(name, df) as real
  {
    if BallsFaced(name, df) != 0 {
      RatioScales(Runs(name, df), BallsFaced(name, df), 100.0);
    }
  }

  /** Wides are the only faced deliveries the strike rate leaves out. */
  lemma BallsFacedExcludeOnlyWides(name: string, df: seq<Ball>)
    ensures BallsFaced(name, df) + |Filter(FacedRows(name, df), Not(NotWide()))| == |FacedRows(name, df)|
  {
    CountSplit(FacedRows(name, df), NotWide());
  }

  function BoundaryRuns(b: Ball): int
  {
    if b.batsmanRun == 4 && b.nonBoundary == 0 then 4
    else if b.batsmanRun == 6 && b.nonBoundary == 0 then 6
    else 0
  }

  /** Boundaries are counted only when off the bat for exactly 4 or 6 and not
      flagged as non-boundary, so their runs never exceed the batter's runs. */
  lemma BoundariesWithinRuns(name: string, df: seq<Ball>)
    ensures 4 * Fours(name, df) + 6 * Sixes(name, df) <= Runs(name, df)
  {
    var f := FacedRows(name, df);
    var fours, others := Filter(f, BoundaryFour()), Filter(f, Not(BoundaryFour()));
    SumSplit(f, BoundaryRuns, BoundaryFour());
    FilterAll(fours, BoundaryFour());
    SumCount(fours, BoundaryRuns, BoundaryFour(), 4);
    SumCount(others, BoundaryRuns, BoundarySix(), 6);
    FilterNarrow(f, Not(BoundaryFour()), BoundarySix());
    SumMonotone(f, BoundaryRuns, BatsmanRun);
    assert Sum(f, BoundaryRuns) == 4 * |fours| + 6 * |Filter(others, BoundarySix())|;
  }

  // ---------------------------------------------------------------- per-match totals

  /** A match total counts as a fifty or as a hundred, never both, so the two
      counts together are at most the innings. */
  lemma MilestonesWithinInnings(name: string, df: seq<Ball>)
    ensures 0 <= Fifties(name, df) && 0 <= Hundreds(name, df)
    ensures Fifties(name, df) + Hundreds(name, df) <= Innings(name, df)
  {
    var f := FacedRows(name, df);
    var fifty := set id | id in Ids(f) && 50 <= MatchRuns(f, id) < 100;
    var hundred := set id | id in Ids(f) && MatchRuns(f, id) >= 100;
    assert fifty !! hundred;
    SubsetCardinality(fifty + hundred, Ids(f));
  }

  lemma TopMatchIsBest(rows: seq<Ball>)
    requires rows != []
    ensures TopMatch(rows) in Ids(rows)
    ensures forall id :: id in Ids(rows) ==> MatchRuns(rows, id) <= MatchRuns(rows, TopMatch(rows))
  {
    var ids := Column(rows, BallId);
    forall id | id in Ids(rows) ensures id in ids {
      var b :| b in rows && b.id == id;
      var i :| 0 <= i < |rows| && rows[i] == b;
      assert ids[i] == id;
    }
    var k := TopMatch(rows);
    var i :| 0 <= i < |ids| && ids[i] == k;
    assert rows[i] in rows;
  }

  lemma ScoreText(v: nat, marked: bool)
    ensures ScoreValue(NatText(v) + (if marked then "*" else "")) == Some(v)
  {
    var t := NatText(v);
    assert '*' !in t by {
      assert forall i :: 0 <= i < |t| ==> IsDigit(t[i]);
    }
    RemoveAbsent(t, '*');
    ParseNatText(v);
    if marked {
      RemoveAppend(t, "*", '*');
      assert Remove("*", '*') == "";
      assert Remove(t + "*", '*') == t;
    } else {
      assert t + "" == t;
    }
  }

  /** Highest Score is the largest match total of a match the batter faced a
      ball in, with a `*` exactly when no faced delivery of that match
      dismissed the batter; it is "nan" when the batter faced no ball. */
  lemma HighestScoreIsBestMatch(name: string, df: seq<Ball>)
    ensures FacedRows(name, df) == [] ==> HighestScore(name, df) == "nan"
    ensures FacedRows(name, df) != [] ==>
      var f := FacedRows(name, df);
      exists id :: id in Ids(f)
        && (forall j :: j in Ids(f) ==> MatchRuns(f, j) <= MatchRuns(f, id))
        && HighestScore(name, df) == NatText(MatchRuns(f, id)) + (if DismissedIn(name, f, id) then "" else "*")
        && ScoreValue(HighestScore(name, df)) == Some(MatchRuns(f, id))
  {
    var f := FacedRows(name, df);
    if f != [] {
      TopMatchIsBest(f);
      var id := TopMatch(f);
      ScoreText(MatchRuns(f, id), !DismissedIn(name, f, id));
    }
  }

  // ---------------------------------------------------------------- delta

  /** The batter's own rows are all faced rows. */
  lemma FacedRowsOfOwnRows(name: string, rows: seq<Ball>)
    requires forall b :: b in rows ==> b.batter == name
    ensures FacedRows(name, rows) == rows
  {
    FilterAll(rows, Faced(name));
  }

  /** The delta against the slice without the batter's latest match: one
      innings more, and the runs the batter made in that match. */
  lemma DeltaIsLatestInnings(name: string, df: seq<Ball>)
    requires FacedRows(name, df) != []
    ensures Innings(name, df) - Innings(name, BeforeLast(FacedRows(name, df))) == 1
    ensures Runs(name, df) - Runs(name, BeforeLast(FacedRows(name, df)))
            == Sum(LastMatch(FacedRows(name, df)), BatsmanRun)
  {
    var f := FacedRows(name, df);
    BeforeLastDropsLastMatch(f);
    FacedRowsOfOwnRows(name, BeforeLast(f));
    SumBeforeLast(f, BatsmanRun);
  }

  /** The best match total of the batter's rows without the latest match is
      at most the best of all the batter's rows. */
  lemma BestBeforeLastAtMost(f: seq<Ball>)
    requires BeforeLast(f) != []
    ensures f != [] && MatchRuns(BeforeLast(f), TopMatch(BeforeLast(f))) <= MatchRuns(f, TopMatch(f))
  {
    var before := BeforeLast(f);
    var top := TopMatch(before);
    TopMatchIsBest(before);
    BeforeLastDropsLastMatch(f);
    TopMatchIsBest(f);
    FilterBeforeLast(f, top);
  }

  lemma ScoreOf(name: string, df: seq<Ball>)
    requires FacedRows(name, df) != []
    ensures ScoreValue(HighestScore(name, df))
         == Some(MatchRuns(FacedRows(name, df), TopMatch(FacedRows(name, df))))
  {
    var f := FacedRows(name, df);
    ScoreText(MatchRuns(f, TopMatch(f)), !DismissedIn(name, f, TopMatch(f)));
  }

  /** Dropping the latest match never raises the best match total, so the
      Highest Score delta is never negative; with a single match the
      before-last score is "nan" and the delta is NaN, as it is for a player
      who never faced a ball. */
  lemma HighestScoreDelta(name: string, df: seq<Ball>)
    ensures BeforeLast(FacedRows(name, df)) == [] ==>
              ScoreDelta(HighestScore(name, df), HighestScore(name, BeforeLast(FacedRows(name, df)))) == None
    ensures BeforeLast(FacedRows(name, df)) != [] ==>
              var d := ScoreDelta(HighestScore(name, df), HighestScore(name, BeforeLast(FacedRows(name, df))));
              d.Some? && d.value >= 0
  {
    var f := FacedRows(name, df);
    var before := BeforeLast(f);
    FacedRowsOfOwnRows(name, before);
    if f == [] {
      assert HighestScore(name, df) == "nan";
      assert ScoreValue("nan") == None;
    } else if before == [] {
      assert HighestScore(name, before) == "nan";
      assert ScoreValue("nan") == None;
    } else {
      ScoreOf(name, df);
      ScoreOf(name, before);
      BestBeforeLastAtMost(f);
    }
  }

  /** Every match has one season, so the per-season innings add up to the
      batter's innings. */
  lemma SeasonsCoverInnings(name: string, df: seq<Ball>, seasons: seq<string>)
    requires Consistent(df)
    requires Distinct(seasons) && Elements(seasons) == Keys(FacedRows(name, df), SeasonOf)
    ensures MatchesOver(FacedRows(name, df), SeasonOf, seasons) == Innings(name, df)
  {
    var f := FacedRows(name, df);
    forall a, b | a in f && b in f && a.id == b.id ensures SeasonOf(a) == SeasonOf(b) {
      assert Meta(a) == Meta(b);
    }
    MatchesAddUp(f, SeasonOf, seasons);
  }

  /** In a group of the batter's own rows, the innings are the group's matches. */
  lemma GroupInnings(name: string, df: seq<Ball>, key: Ball -> string, k: string)
    ensures Innings(name, Group(FacedRows(name, df), key, k)) == |Ids(Group(FacedRows(name, df), key, k))|
  {
    FacedRowsOfOwnRows(name, Group(FacedRows(name, df), key, k));
  }
}
