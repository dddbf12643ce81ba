/** The joined event table: one row per delivery, carrying the metadata of its
    match, and the per-delivery rules the three calculators share. */
module Deliveries {
  import opened Wrappers
  import opened Seqs

  /** The `extra_type` category; `NoExtra` is the empty cell. */
  datatype Extra = NoExtra | Wides | NoBalls | Byes | LegByes | Penalty

  /** The `kind` category of a dismissal; `NoDismissal` is the empty cell. */
  datatype Dismissal =
    | NoDismissal | Caught | CaughtAndBowled | Bowled | Stumped | Lbw | HitWicket
    | RunOut | RetiredHurt | RetiredOut | ObstructingTheField

  /** One delivery joined with the metadata of its match (the columns of
      `limited_ball_match` that the engine reads). */
  datatype Ball = Ball(
    id: int,
    innings: int,
    batter: string,
    bowler: string,
    extra: Extra,
    batsmanRun: nat,
    totalRun: nat,
    nonBoundary: nat,
    isWicketDelivery: nat,
    kind: Dismissal,
    playerOut: Option<string>,
    battingTeam: string,
    season: string,
    matchNumber: string,
    team1: string,
    team2: string,
    winningTeam: Option<string>,
    playerOfMatch: Option<string>)

  /** The per-match part of a row: what the join copies from the matches table. */
  datatype MatchMeta = MatchMeta(
    season: string, matchNumber: string, team1: string, team2: string,
    winningTeam: Option<string>, playerOfMatch: Option<string>)

  function Meta(b: Ball): MatchMeta
  {
    MatchMeta(b.season, b.matchNumber, b.team1, b.team2, b.winningTeam, b.playerOfMatch)
  }

  /** The match identifier determines the match metadata of every row. */
  predicate Consistent(rows: seq<Ball>)
  {
    forall a, b :: a in rows && b in rows && a.id == b.id ==> Meta(a) == Meta(b)
  }

  // ---------------------------------------------------------------- columns

  function BallId(b: Ball): int { b.id }
  function SeasonOf(b: Ball): string { b.season }
  function TotalRun(b: Ball): int { b.totalRun }
  function BatsmanRun(b: Ball): int { b.batsmanRun }
  function WicketFlag(b: Ball): int { b.isWicketDelivery }

  /** The distinct match identifiers of a slice (`ID.nunique()` counts them). */
  function Ids(rows: seq<Ball>): set<int>
  {
    set b | b in rows :: b.id
  }

  // ---------------------------------------------------------------- row masks

  function InMatch(id: int): Ball -> bool
  {
    (b: Ball) => b.id == id
  }

  function BeforeMatch(id: int): Ball -> bool
  {
    (b: Ball) => b.id < id
  }

  /** `extra_type != 'wides'`: the delivery counts as a ball faced. */
  function NotWide(): Ball -> bool
  {
    (b: Ball) => b.extra != Wides
  }

  /** `~extra_type.isin(['wides', 'noballs'])`: a legal delivery for the bowler. */
  function Legal(): Ball -> bool
  {
    (b: Ball) => b.extra != Wides && b.extra != NoBalls
  }

  /** A four off the bat that reached the boundary (`batsman_run == 4` and
      `non_boundary == 0`). */
  function BoundaryFour(): Ball -> bool
  {
    (b: Ball) => b.batsmanRun == 4 && b.nonBoundary == 0
  }

  function BoundarySix(): Ball -> bool
  {
    (b: Ball) => b.batsmanRun == 6 && b.nonBoundary == 0
  }

  function OutIs(name: string): Ball -> bool
  {
    (b: Ball) => b.playerOut == Some(name)
  }

  function PlayerOfMatchIs(name: string): Ball -> bool
  {
    (b: Ball) => b.playerOfMatch == Some(name)
  }

  function SeasonIn(seasons: seq<string>): Ball -> bool
  {
    (b: Ball) => b.season in seasons
  }

  // ---------------------------------------------------------------- data preparation

  /** `innings.isin([1, 2])`: super-over deliveries are dropped. */
  function RegularInnings(): Ball -> bool
  {
    (b: Ball) => b.innings == 1 || b.innings == 2
  }

  /** Split-year season labels are renamed to their single-year label. */
  function CanonicalSeason(s: string): (r: string)
    ensures r != "2007/08" && r != "2009/10" && r != "2020/21"
    ensures s != "2007/08" && s != "2009/10" && s != "2020/21" ==> r == s
  {
    if s == "2007/08" then "2008"
    else if s == "2009/10" then "2010"
    else if s == "2020/21" then "2020"
    else s
  }

  lemma CanonicalSeasonIdempotent(s: string)
    ensures CanonicalSeason(CanonicalSeason(s)) == CanonicalSeason(s)
  {
  }

  /** A split-year label and its single-year label end up equal. */
  lemma CanonicalSeasonMerges()
    ensures CanonicalSeason("2007/08") == CanonicalSeason("2008")
    ensures CanonicalSeason("2009/10") == CanonicalSeason("2010")
    ensures CanonicalSeason("2020/21") == CanonicalSeason("2020")
  {
  }

  function WithCanonicalSeason(b: Ball): Ball
  {
    b.(season := CanonicalSeason(b.season))
  }

  // ---------------------------------------------------------------- the most recent match

  /** `ID.max()` of a non-empty slice. */
  function MaxId(rows: seq<Ball>): (m: int)
    requires rows != []
    ensures m in Ids(rows)
    ensures forall b :: b in rows ==> b.id <= m
  {
    if |rows| == 1 then rows[0].id
    else
      var rest := MaxId(rows[1..]);
      assert forall b :: b in rows ==> b == rows[0] || b in rows[1..];
      if rows[0].id >= rest then rows[0].id else rest
  }

  /** `df[df.ID < df.ID.max()]`; on an empty slice the maximum is NaN, every
      comparison is false and the result is empty. */
  function BeforeLast(rows: seq<Ball>): seq<Ball>
  {
    if rows == [] then [] else Filter(rows, BeforeMatch(MaxId(rows)))
  }

  /** The rows of the most recent match. */
  function LastMatch(rows: seq<Ball>): seq<Ball>
  {
    if rows == [] then [] else Filter(rows, InMatch(MaxId(rows)))
  }

  /** Before-last drops exactly the rows of the match with the largest identifier. */
  lemma BeforeLastDropsLastMatch(rows: seq<Ball>)
    requires rows != []
    ensures forall b :: b in BeforeLast(rows) <==> b in rows && b.id != MaxId(rows)
    ensures Ids(BeforeLast(rows)) == Ids(rows) - {MaxId(rows)}
    ensures |Ids(BeforeLast(rows))| == |Ids(rows)| - 1
  {
    var m := MaxId(rows);
    var before := BeforeLast(rows);
    assert before == Filter(rows, BeforeMatch(m));
    forall b ensures b in before <==> b in rows && b.id != m {
      assert BeforeMatch(m)(b) <==> b.id < m;
    }
    forall x | x in Ids(rows) - {m} ensures x in Ids(before) {
      var b :| b in rows && b.id == x;
      assert b in before;
    }
    forall x | x in Ids(before) ensures x in Ids(rows) - {m} {
      var b :| b in before && b.id == x;
      assert b in rows;
    }
    assert Ids(before) == Ids(rows) - {m};
    assert Ids(rows) == Ids(before) + {m};
  }

  /** Every summed column splits into the before-last part and the last match. */
  lemma SumBeforeLast(rows: seq<Ball>, f: Ball -> int)
    ensures Sum(rows, f) == Sum(BeforeLast(rows), f) + Sum(LastMatch(rows), f)
  {
    if rows != [] {
      var m := MaxId(rows);
      SumSplit(rows, f, BeforeMatch(m));
      FilterAgree(rows, Not(BeforeMatch(m)), InMatch(m));
    }
  }

  /** A mask that only looks at the match identifier keeps, in before-last,
      the rows it keeps in the whole slice except those of the last match. */
  lemma FilterBeforeLast(rows: seq<Ball>, id: int)
    requires rows != [] && id < MaxId(rows)
    ensures Filter(BeforeLast(rows), InMatch(id)) == Filter(rows, InMatch(id))
  {
    FilterNarrow(rows, BeforeMatch(MaxId(rows)), InMatch(id));
  }

  // ---------------------------------------------------------------- distinct-match counting

  /** The matches of a slice split into those whose rows satisfy a per-match
      condition and those whose rows do not. The two parts cover every match;
      they are disjoint when the condition depends only on the match. */
  lemma IdsSplit(rows: seq<Ball>, p: Ball -> bool)
    ensures Ids(Filter(rows, p)) + Ids(Filter(rows, Not(p))) == Ids(rows)
    ensures |Ids(Filter(rows, p))| + |Ids(Filter(rows, Not(p)))| >= |Ids(rows)|
    ensures (forall a, b :: a in rows && b in rows && a.id == b.id ==> p(a) == p(b)) ==>
              |Ids(Filter(rows, p))| + |Ids(Filter(rows, Not(p)))| == |Ids(rows)|
  {
    var yes, no := Ids(Filter(rows, p)), Ids(Filter(rows, Not(p)));
    forall x | x in Ids(rows) ensures x in yes + no {
      var b :| b in rows && b.id == x;
      if p(b) { assert b in Filter(rows, p); } else { assert b in Filter(rows, Not(p)); }
    }
    assert yes + no == Ids(rows);
    if forall a, b :: a in rows && b in rows && a.id == b.id ==> p(a) == p(b) {
      forall x | x in yes ensures x !in no {
        var a :| a in Filter(rows, p) && a.id == x;
        assert forall b :: b in Filter(rows, Not(p)) ==> b.id != a.id;
      }
      assert yes !! no;
    }
  }

  /** Narrowing a slice never adds a match. */
  lemma IdsFilterSubset(rows: seq<Ball>, p: Ball -> bool)
    ensures Ids(Filter(rows, p)) <= Ids(rows)
    ensures |Ids(Filter(rows, p))| <= |Ids(rows)|
  {
    SubsetCardinality(Ids(Filter(rows, p)), Ids(rows));
  }
}
