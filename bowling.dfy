/** The bowler calculator (`bowlerRecord`), the two derived columns it reads
    (`bowler_run`, `isBowlerWicket`), and the properties of its record. */
module Bowling {
  import opened Wrappers
  import opened Seqs
  import opened Text
  import opened Deliveries

  /** The fields of a bowler record, in the order the source emits them.
      `bestFigureFraction` is the text "wickets/runs". */
  datatype BowlerStats = BowlerStats(
    innings: int,
    wickets: int,
    threePlus: int,
    bestFigureFraction: string,
    average: real,
    economy: real,
    strikeRate: real,
    manOfMatch: int,
    fours: int,
    sixes: int,
    bestFigure: real)

  // ---------------------------------------------------------------- attribution to the bowler

  /** `bowler_run`: byes, leg-byes and penalty runs are not charged to the
      bowler; everything else on the delivery is. */
  function BowlerRun(b: Ball): int
  {
    if b.extra == Penalty || b.extra == LegByes || b.extra == Byes then 0 else b.totalRun
  }

  /** Dismissal kinds credited to the bowler. */
  predicate BowlerKind(k: Dismissal)
  {
    k == Caught || k == CaughtAndBowled || k == Bowled || k == Stumped || k == Lbw || k == HitWicket
  }

  /** `isBowlerWicket`: the wicket flag for the bowler's kinds, otherwise 0. */
  function BowlerWicket(b: Ball): int
  {
    if BowlerKind(b.kind) then b.isWicketDelivery else 0
  }

  lemma AttributionBounds(b: Ball)
    ensures 0 <= BowlerRun(b) <= b.totalRun
    ensures 0 <= BowlerWicket(b) <= b.isWicketDelivery
    ensures BowlerWicket(b) == b.isWicketDelivery <== BowlerKind(b.kind)
    ensures b.kind == RunOut ==> BowlerWicket(b) == 0
  {
  }

  // ---------------------------------------------------------------- the record

  /** `bowler == name`: deliveries the bowler bowled. */
  function BowledBy(name: string): Ball -> bool
  {
    (b: Ball) => b.bowler == name
  }

  function BowledRows(name: string, df: seq<Ball>): seq<Ball> { Filter(df, BowledBy(name)) }

  function Innings(name: string, df: seq<Ball>): int { |Ids(BowledRows(name, df))| }
  function LegalBalls(name: string, df: seq<Ball>): int { |Filter(BowledRows(name, df), Legal())| }
  function Runs(name: string, df: seq<Ball>): int { Sum(BowledRows(name, df), BowlerRun) }
  function Wickets(name: string, df: seq<Ball>): int { Sum(BowledRows(name, df), BowlerWicket) }
  function Fours(name: string, df: seq<Ball>): int { |Filter(BowledRows(name, df), BoundaryFour())| }
  function Sixes(name: string, df: seq<Ball>): int { |Filter(BowledRows(name, df), BoundarySix())| }

  function Economy(name: string, df: seq<Ball>): real
  {
    if LegalBalls(name, df) != 0
    then (Runs(name, df) as real / LegalBalls(name, df) as real) * 6.0 else 0.0
  }

  function Average(name: string, df: seq<Ball>): real
  {
    if Wickets(name, df) != 0 then Runs(name, df) as real / Wickets(name, df) as real else 0.0
  }

  function StrikeRate(name: string, df: seq<Ball>): real
  {
    if Wickets(name, df) != 0
    then (LegalBalls(name, df) as real / Wickets(name, df) as real) * 6.0 else 0.0
  }

  /** The bowler's wickets and runs in match `id` (`groupby('ID').sum()`). */
  function MatchWickets(rows: seq<Ball>, id: int): (w: int)
    ensures w >= 0
  {
    SumNonNegative(Filter(rows, InMatch(id)), BowlerWicket);
    Sum(Filter(rows, InMatch(id)), BowlerWicket)
  }

  function MatchRuns(rows: seq<Ball>, id: int): (r: int)
    ensures r >= 0
  {
    SumNonNegative(Filter(rows, InMatch(id)), BowlerRun);
    Sum(Filter(rows, InMatch(id)), BowlerRun)
  }

  function WicketsIn(rows: seq<Ball>): int -> int { (id: int) => MatchWickets(rows, id) }
  function RunsIn(rows: seq<Ball>): int -> int { (id: int) => MatchRuns(rows, id) }

  /** The matches in which the bowler took three wickets or more. */
  function Hauls(rows: seq<Ball>): set<int>
  {
    set id | id in Ids(rows) && MatchWickets(rows, id) >= 3
  }

  function ThreePlus(name: string, df: seq<Ball>): int
  {
    |Hauls(BowledRows(name, df))|
  }

  /** The first match after sorting by wickets descending, runs ascending. */
  function BestMatch(rows: seq<Ball>): int
    requires rows != []
  {
    ArgBest(Column(rows, BallId), WicketsIn(rows), RunsIn(rows))
  }

  /** `f'{w}/{r}'`. */
  function FigureText(w: int, r: int): string
  {
    IntText(w) + "/" + IntText(r)
  }

  /** `s.split('/')` read back as two integers; `None` when the text is not
      of that form (the source would raise). */
  function FigureParts(s: string): Option<(int, int)>
  {
    var parts := Split(s, "/");
    if |parts| != 2 then None
    else match (ParseInt(parts[0]), ParseInt(parts[1]))
      case (Some(w), Some(r)) => Some((w, r))
      case _ => None
  }

  function BestFigureFraction(name: string, df: seq<Ball>): string
  {
    var b := BowledRows(name, df);
    if b == [] then "0/0"
    else
      var m := BestMatch(b);
      FigureText(MatchWickets(b, m), MatchRuns(b, m))
  }

  /** The fraction read back and divided; 0 when the runs part is 0. */
  function FigureValue(fraction: string): real
  {
    match FigureParts(fraction)
    case Some((w, r)) => if r != 0 then w as real / r as real else 0.0
    case None => 0.0
  }

  function ManOfMatch(name: string, df: seq<Ball>): int
  {
    |Ids(Filter(BowledRows(name, df), PlayerOfMatchIs(name)))|
  }

  /** `bowlerRecord(name, df)`. */
  function BowlerRecord(name: string, df: seq<Ball>): BowlerStats
  {
    BowlerStats(
      Innings(name, df), Wickets(name, df), ThreePlus(name, df),
      BestFigureFraction(name, df), Average(name, df), Economy(name, df),
      StrikeRate(name, df), ManOfMatch(name, df), Fours(name, df), Sixes(name, df),
      FigureValue(BestFigureFraction(name, df)))
  }

  /** The fraction delta: both fractions read back and subtracted part by
      part, written out again as "dw/dr". */
  function FigureDelta(overall: string, before: string): string
  {
    var o := FigureParts(overall);
    var b := FigureParts(before);
    if o.Some? && b.Some? then FigureText(o.value.0 - b.value.0, o.value.1 - b.value.1) else ""
  }

  /** Every field of the overall record minus the before-last one. */
  function Delta(overall: BowlerStats, before: BowlerStats): BowlerStats
  {
    BowlerStats(
      overall.innings - before.innings, overall.wickets - before.wickets,
      overall.threePlus - before.threePlus,
      FigureDelta(overall.bestFigureFraction, before.bestFigureFraction),
      overall.average - before.average, overall.economy - before.economy,
      overall.strikeRate - before.strikeRate, overall.manOfMatch - before.manOfMatch,
      overall.fours - before.fours, overall.sixes - before.sixes,
      overall.bestFigure - before.bestFigure)
  }

  // ---------------------------------------------------------------- runs and wickets charged

  /** The bowler is charged at most the runs scored off the deliveries, and
      credited at most the wickets that fell on them. */
  lemma ChargedWithinTotals(name: string, df: seq<Ball>)
    ensures 0 <= Runs(name, df) <= Sum(BowledRows(name, df), TotalRun)
    ensures 0 <= Wickets(name, df) <= Sum(BowledRows(name, df), WicketFlag)
  {
    var b := BowledRows(name, df);
    SumMonotone(b, BowlerRun, TotalRun);
    SumMonotone(b, BowlerWicket, WicketFlag);
    SumNonNegative(b, BowlerRun);
    SumNonNegative(b, BowlerWicket);
  }

  /** Legal balls leave out exactly the wides and the no-balls. */
  lemma LegalBallsExcludeWidesAndNoBalls(name: string, df: seq<Ball>)
    ensures LegalBalls(name, df) + |Filter(BowledRows(name, df), Not(Legal()))| == |BowledRows(name, df)|
    ensures forall x :: x in Filter(BowledRows(name, df), Not(Legal())) ==> x.extra == Wides || x.extra == NoBalls
  {
    CountSplit(BowledRows(name, df), Legal());
  }

  /** Economy is 0 without a legal ball, otherwise runs per six legal balls. */
  lemma EconomyGuarded(name: string, df: seq<Ball>)
    ensures LegalBalls(name, df) == 0 ==> Economy(name, df) == 0.0
    ensures LegalBalls(name, df) != 0 ==>
              Economy(name, df) * LegalBalls(name, df) as real == 6.0 * Runs(name, df) as real
  {
    if LegalBalls(name, df) != 0 {
      RatioScales(Runs(name, df), LegalBalls(name, df), 6.0);
    }
  }

  /** Average is 0 without a wicket, otherwise runs per wicket. */
  lemma AverageGuarded(name: string, df: seq<Ball>)
    ensures Wickets(name, df) == 0 ==> Average(name, df) == 0.0
    ensures Wickets(name, df) != 0 ==> Average(name, df) * Wickets(name, df) as real == Runs(name, df) as real
  {
    if Wickets(name, df) != 0 {
      RatioScales(Runs(name, df), Wickets(name, df), 1.0);
    }
  }

  /** Strike Rate is 0 without a wicket, otherwise legal balls per wicket. */
  lemma StrikeRateGuarded(name: string, df: seq<Ball>)
    ensures Wickets(name, df) == 0 ==> StrikeRate(name, df) == 0.0
    ensures Wickets(name, df) != 0 ==>
              StrikeRate(name, df) * Wickets(name, df) as real == 6.0 * LegalBalls(name, df) as real
  {
    var l, w := LegalBalls(name, df), Wickets(name, df);
    if w != 0 {
      assert StrikeRate(name, df) == (l as real / w as real) * 6.0;
      RatioScales(l, w, 6.0);
    }
  }

  // ---------------------------------------------------------------- per-match figures

  /** Hauls of three or more and Man of Match awards are counted once per
      match, so neither exceeds the innings. */
  lemma PerMatchCountsWithinInnings(name: string, df: seq<Ball>)
    ensures 0 <= ThreePlus(name, df) <= Innings(name, df)
    ensures 0 <= ManOfMatch(name, df) <= Innings(name, df)
  {
    var b := BowledRows(name, df);
    SubsetCardinality(Hauls(b), Ids(b));
    IdsFilterSubset(b, PlayerOfMatchIs(name));
  }

  lemma BestMatchIsBest(rows: seq<Ball>)
    requires rows != []
    ensures BestMatch(rows) in Ids(rows)
    ensures forall id :: id in Ids(rows) ==> Ranks(WicketsIn(rows), RunsIn(rows), BestMatch(rows), id)
  {
    var ids := Column(rows, BallId);
    forall id | id in Ids(rows) ensures id in ids {
      var b :| b in rows && b.id == id;
      var i :| 0 <= i < |rows| && rows[i] == b;
      assert ids[i] == id;
    }
    var k := BestMatch(rows);
    var i :| 0 <= i < |ids| && ids[i] == k;
    assert rows[i] in rows;
  }

  /** The sort is not stable, but every match it may put first has the same
      wickets and runs, so the fraction does not depend on that choice. */
  lemma BestFigureDetermined(rows: seq<Ball>, a: int, b: int)
    requires a in Ids(rows) && b in Ids(rows)
    requires forall id :: id in Ids(rows) ==> Ranks(WicketsIn(rows), RunsIn(rows), a, id)
    requires forall id :: id in Ids(rows) ==> Ranks(WicketsIn(rows), RunsIn(rows), b, id)
    ensures MatchWickets(rows, a) == MatchWickets(rows, b)
    ensures MatchRuns(rows, a) == MatchRuns(rows, b)
  {
    assert Ranks(WicketsIn(rows), RunsIn(rows), a, b);
    assert Ranks(WicketsIn(rows), RunsIn(rows), b, a);
  }

  lemma FigureRoundTrip(w: int, r: int)
    ensures FigureParts(FigureText(w, r)) == Some((w, r))
  {
    NoSlashInNumber(w);
    NoSlashInNumber(r);
    SplitAtChar(IntText(w), IntText(r), '/');
    SplitNoChar(IntText(r), '/');
    assert Split(FigureText(w, r), "/") == [IntText(w), IntText(r)];
    ParseIntText(w);
    ParseIntText(r);
  }

  /** The best figure is "0/0" for a bowler with no deliveries; otherwise it
      is the wickets and runs of a match with the most wickets and, among
      those, the fewest runs. */
  lemma BestFigureIsBest(name: string, df: seq<Ball>)
    ensures BowledRows(name, df) == [] ==> BestFigureFraction(name, df) == "0/0"
    ensures BowledRows(name, df) != [] ==>
      var b := BowledRows(name, df);
      exists id :: id in Ids(b)
        && (forall j :: j in Ids(b) ==> MatchWickets(b, j) >= MatchWickets(b, id) ==> MatchWickets(b, j) == MatchWickets(b, id))
        && (forall j :: j in Ids(b) && MatchWickets(b, j) == MatchWickets(b, id) ==> MatchRuns(b, id) <= MatchRuns(b, j))
        && FigureParts(BestFigureFraction(name, df)) == Some((MatchWickets(b, id), MatchRuns(b, id)))
  {
    var b := BowledRows(name, df);
    if b != [] {
      BestMatchIsBest(b);
      var m := BestMatch(b);
      FigureRoundTrip(MatchWickets(b, m), MatchRuns(b, m));
      assert BestFigureFraction(name, df) == FigureText(MatchWickets(b, m), MatchRuns(b, m));
      forall j | j in Ids(b)
        ensures MatchWickets(b, j) >= MatchWickets(b, m) ==> MatchWickets(b, j) == MatchWickets(b, m)
        ensures MatchWickets(b, j) == MatchWickets(b, m) ==> MatchRuns(b, m) <= MatchRuns(b, j)
      {
        assert Ranks(WicketsIn(b), RunsIn(b), m, j);
      }
    }
  }

  /** The numeric Best Figure is wickets over runs of the best figure, 0
      when its runs part is 0. */
  lemma BestFigureValue(w: int, r: int)
    ensures r != 0 ==> FigureValue(FigureText(w, r)) == w as real / r as real
    ensures r == 0 ==> FigureValue(FigureText(w, r)) == 0.0
  {
    FigureRoundTrip(w, r);
  }

  lemma DeltaOfParsed(overall: string, before: string)
    requires FigureParts(overall).Some? && FigureParts(before).Some?
    ensures FigureDelta(overall, before) == FigureText(
              FigureParts(overall).value.0 - FigureParts(before).value.0,
              FigureParts(overall).value.1 - FigureParts(before).value.1)
  {
  }

  /** The fraction delta reads back as the part-by-part difference. */
  lemma FigureDeltaParts(ow: int, or: int, bw: int, br: int)
    ensures FigureParts(FigureDelta(FigureText(ow, or), FigureText(bw, br))) == Some((ow - bw, or - br))
  {
    FigureRoundTrip(ow, or);
    FigureRoundTrip(bw, br);
    DeltaOfParsed(FigureText(ow, or), FigureText(bw, br));
    FigureRoundTrip(ow - bw, or - br);
  }

  // ---------------------------------------------------------------- delta

  /** The bowler's own rows are all bowled rows. */
  lemma BowledRowsOfOwnRows(name: string, rows: seq<Ball>)
    requires forall b :: b in rows ==> b.bowler == name
    ensures BowledRows(name, rows) == rows
  {
    FilterAll(rows, BowledBy(name));
  }

  /** The delta against the bowler's rows without the latest match: one
      innings more, and the wickets and runs charged in that match. */
  lemma DeltaIsLatestInnings(name: string, df: seq<Ball>)
    requires BowledRows(name, df) != []
    ensures Innings(name, df) - Innings(name, BeforeLast(BowledRows(name, df))) == 1
    ensures Wickets(name, df) - Wickets(name, BeforeLast(BowledRows(name, df)))
            == Sum(LastMatch(BowledRows(name, df)), BowlerWicket)
    ensures Runs(name, df) - Runs(name, BeforeLast(BowledRows(name, df)))
            == Sum(LastMatch(BowledRows(name, df)), BowlerRun)
  {
    var b := BowledRows(name, df);
    BeforeLastDropsLastMatch(b);
    BowledRowsOfOwnRows(name, BeforeLast(b));
    SumBeforeLast(b, BowlerWicket);
    SumBeforeLast(b, BowlerRun);
  }
}
