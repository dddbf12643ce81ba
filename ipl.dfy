/** The `IPL` object: the match table and the joined ball-by-ball table it
    holds, their preparation, the listing endpoints, and the three record
    resolvers that validate a request, select seasons and assemble the
    overall record, the per-opponent and per-season records and the delta. */
module Ipl {
  import opened Seqs
  import opened Text
  import opened Deliveries
  import opened Grouping
  import Team
  import Batting
  import Bowling

  /** One row of the match table, with its two player-list columns kept as
      the list literals the table stores. */
  datatype MatchInfo = MatchInfo(
    id: int,
    season: string,
    team1: string,
    team2: string,
    team1Players: string,
    team2Players: string)

  /** `{"seasons": ..., "total_seasons": ...}` and the like. */
  datatype Listing = Listing(items: seq<string>, total: int)

  /** `{"team": ..., "total_players": ..., "players": ...}`. */
  datatype Squad = Squad(team: string, players: seq<string>, total: int)

  /** `{"error": message}` or a successful answer. */
  datatype Outcome<T> = Error(message: string) | Ok(value: T)

  /** A record answer: the degenerate envelope carrying only a message, or
      the overall record, the records per opponent and per season, and the
      delta of the overall record against the one before the latest match. */
  datatype Envelope<S, D> =
    | Empty(message: string)
    | Report(overall: S, againstTeam: map<string, S>, againstSeason: map<string, S>, delta: D)

  /** What `playerComparison_API` collects for every player. */
  datatype Comparison = Comparison(
    batsman: map<string, Outcome<Envelope<Batting.BatsmanStats, Batting.BatsmanDelta>>>,
    bowler: map<string, Outcome<Envelope<Bowling.BowlerStats, Bowling.BowlerStats>>>)

  const InvalidTeam := "Invalid team name"
  const InvalidPlayer := "Invalid player name"
  const InvalidSeasons := "One or more invalid season names provided"
  const InvalidPlayers := "One or more invalid team names provided"
  const NoSeasons := "privide seasons in list os string"

  // ---------------------------------------------------------------- columns of the match table

  function SeasonOfMatch(m: MatchInfo): string { m.season }
  function Team1Of(m: MatchInfo): string { m.team1 }
  function Team2Of(m: MatchInfo): string { m.team2 }
  function Team1PlayersOf(m: MatchInfo): string { m.team1Players }
  function Team2PlayersOf(m: MatchInfo): string { m.team2Players }

  function PlaysAsTeam1(team: string): MatchInfo -> bool { (m: MatchInfo) => m.team1 == team }
  function PlaysAsTeam2(team: string): MatchInfo -> bool { (m: MatchInfo) => m.team2 == team }

  /** `BattingTeam`, and the bowling side `Team2 if BattingTeam == Team1 else Team1`. */
  function BattingTeam(b: Ball): string { b.battingTeam }
  function BowlingTeam(b: Ball): string { if b.battingTeam == b.team1 then b.team2 else b.team1 }

  // ---------------------------------------------------------------- preparation

  function CanonicalMatch(m: MatchInfo): MatchInfo
  {
    m.(season := CanonicalSeason(m.season))
  }

  /** The match table after the season labels are canonicalised. */
  function CanonicalMatches(ms: seq<MatchInfo>): seq<MatchInfo>
  {
    Column(ms, CanonicalMatch)
  }

  /** The joined table after canonicalising seasons and dropping super overs. */
  function Prepared(rows: seq<Ball>): seq<Ball>
  {
    Filter(Column(rows, WithCanonicalSeason), RegularInnings())
  }

  /** A prepared row is a regular-innings row of the input with its season
      canonicalised, and every such row is kept. */
  lemma PreparedRows(rows: seq<Ball>, x: Ball)
    ensures x in Prepared(rows) <==> exists b :: b in rows && RegularInnings()(b) && x == WithCanonicalSeason(b)
    ensures x in Prepared(rows) ==> (x.innings == 1 || x.innings == 2) && x.season == CanonicalSeason(x.season)
  {
    InColumn(rows, WithCanonicalSeason, x);
    if x in Prepared(rows) {
      var b :| b in rows && WithCanonicalSeason(b) == x;
      CanonicalSeasonIdempotent(b.season);
    }
  }

  /** Preparing prepared data changes nothing. */
  lemma PreparedIdempotent(rows: seq<Ball>)
    ensures Prepared(Prepared(rows)) == Prepared(rows)
  {
    var p := Prepared(rows);
    var c := Column(p, WithCanonicalSeason);
    forall i | 0 <= i < |p| ensures c[i] == p[i] {
      PreparedRows(rows, p[i]);
    }
    assert c == p;
    forall x | x in p ensures RegularInnings()(x) {
      PreparedRows(rows, x);
    }
    FilterAll(p, RegularInnings());
  }

  /** No split-year label is left in a canonicalised match table. */
  lemma NoSplitYearLabels(ms: seq<MatchInfo>, m: MatchInfo)
    requires m in CanonicalMatches(ms)
    ensures m.season != "2007/08" && m.season != "2009/10" && m.season != "2020/21"
  {
    InColumn(ms, CanonicalMatch, m);
  }

  // ---------------------------------------------------------------- what a request may name

  /** A season label the resolvers accept: 'All' or a season of the table. */
  predicate ValidSeason(ms: seq<MatchInfo>, s: string)
  {
    s == "All" || exists m :: m in ms && m.season == s
  }

  predicate SeasonsValid(ms: seq<MatchInfo>, seasons: seq<string>)
  {
    forall s :: s in seasons ==> ValidSeason(ms, s)
  }

  /** A team that appears on either side of some match. */
  predicate ValidTeam(ms: seq<MatchInfo>, t: string)
  {
    exists m :: m in ms && (m.team1 == t || m.team2 == t)
  }

  /** `str.lstrip("['").rstrip("']").split("', '")` on a player-list literal. */
  function ParseNames(s: string): seq<string>
  {
    Split(RStrip(LStrip(s, {'[', '\''}), {'\'', ']'}), "', '")
  }

  /** The list literal `str(names)` for a list of plain names. */
  function ListText(names: seq<string>): string
    requires |names| > 0
  {
    "['" + Join(names, "', '") + "']"
  }

  /** Stripping the brackets and quotes of a list literal leaves the joined
      names, provided the first name does not start with a quote or bracket
      and the last does not end with one. */
  lemma StripListText(names: seq<string>)
    requires |names| > 0
    requires names[0] != [] && names[0][0] !in {'[', '\''}
    requires names[|names| - 1] != [] && names[|names| - 1][|names[|names| - 1]| - 1] !in {'\'', ']'}
    ensures RStrip(LStrip(ListText(names), {'[', '\''}), {'\'', ']'}) == Join(names, "', '")
  {
    var body := Join(names, "', '");
    JoinEnds(names, "', '");
    assert body[0] == names[0][0];
    var last := names[|names| - 1];
    assert body[|body| - 1] == last[|last| - 1];
    assert ListText(names) == "['" + (body + "']");
    StripPrefix("['", body + "']", {'[', '\''});
    StripSuffix(body, "']", {'\'', ']'});
  }

  /** Reading a list literal back gives the names, provided no name holds a
      comma, the first does not start with a quote or bracket and the last
      does not end with one. */
  lemma ParseListText(names: seq<string>)
    requires |names| > 0
    requires forall i :: 0 <= i < |names| ==> ',' !in names[i]
    requires names[0] != [] && names[0][0] !in {'[', '\''}
    requires names[|names| - 1] != [] && names[|names| - 1][|names[|names| - 1]| - 1] !in {'\'', ']'}
    ensures ParseNames(ListText(names)) == names
  {
    StripListText(names);
    SplitJoin(names, "', '", ',');
  }

  /** The players of one side over all matches, list after list (`.sum()`). */
  function Roster(ms: seq<MatchInfo>, side: MatchInfo -> string): seq<string>
  {
    if ms == [] then [] else ParseNames(side(ms[0])) + Roster(ms[1..], side)
  }

  lemma {:induction false} RosterMembers(ms: seq<MatchInfo>, side: MatchInfo -> string, p: string)
    ensures p in Roster(ms, side) <==> exists m :: m in ms && p in ParseNames(side(m))
  {
    if ms != [] {
      RosterMembers(ms[1..], side, p);
      if m :| m in ms[1..] && p in ParseNames(side(m)) {
        assert m in ms;
      }
      if m :| m in ms && p in ParseNames(side(m)) {
        if m != ms[0] {
          assert m in ms[1..];
        }
      }
    }
  }

  /** A player listed for either side of some match. */
  predicate ValidPlayer(ms: seq<MatchInfo>, p: string)
  {
    exists m :: m in ms && (p in ParseNames(m.team1Players) || p in ParseNames(m.team2Players))
  }

  /** A player listed for `team` in a match where `team` played. */
  predicate PlayedFor(ms: seq<MatchInfo>, team: string, p: string)
  {
    exists m :: m in ms &&
      ((m.team1 == team && p in ParseNames(m.team1Players)) ||
       (m.team2 == team && p in ParseNames(m.team2Players)))
  }

  /** The names listed on a team's own side of its matches. */
  function SquadNames(ms: seq<MatchInfo>, team: string): seq<string>
  {
    Roster(Filter(ms, PlaysAsTeam1(team)), Team1PlayersOf) + Roster(Filter(ms, PlaysAsTeam2(team)), Team2PlayersOf)
  }

  lemma SquadMembers(ms: seq<MatchInfo>, team: string, p: string)
    ensures p in SquadNames(ms, team) <==> PlayedFor(ms, team, p)
  {
    var a := Filter(ms, PlaysAsTeam1(team));
    var b := Filter(ms, PlaysAsTeam2(team));
    RosterMembers(a, Team1PlayersOf, p);
    RosterMembers(b, Team2PlayersOf, p);
    if p in Roster(a, Team1PlayersOf) {
      var m :| m in a && p in ParseNames(Team1PlayersOf(m));
      assert m in ms && m.team1 == team;
    }
    if p in Roster(b, Team2PlayersOf) {
      var m :| m in b && p in ParseNames(Team2PlayersOf(m));
      assert m in ms && m.team2 == team;
    }
    if PlayedFor(ms, team, p) {
      var m :| m in ms &&
        ((m.team1 == team && p in ParseNames(m.team1Players)) ||
         (m.team2 == team && p in ParseNames(m.team2Players)));
      if m.team1 == team && p in ParseNames(m.team1Players) {
        assert m in a && p in ParseNames(Team1PlayersOf(m));
      } else {
        assert m in b && p in ParseNames(Team2PlayersOf(m));
      }
    }
  }

  /** `all(x in valid for x in xs)`. */
  method AllIn(xs: seq<string>, valid: seq<string>) returns (ok: bool)
    ensures ok <==> forall x :: x in xs ==> x in valid
  {
    ok := true;
    var i := 0;
    while i < |xs| && ok
      invariant 0 <= i <= |xs|
      invariant ok <==> forall k :: 0 <= k < i ==> xs[k] in valid
    {
      ok := xs[i] in valid;
      i := i + 1;
    }
  }

  // ---------------------------------------------------------------- the record resolvers

  /** The season filter: none when 'All' is requested, otherwise `isin`. */
  function Selected(rows: seq<Ball>, seasons: seq<string>): seq<Ball>
  {
    if "All" in seasons then rows else Filter(rows, SeasonIn(seasons))
  }

  function TeamRecorder(team: string): seq<Ball> -> Team.TeamStats
  {
    (d: seq<Ball>) => Team.TeamRecord(team, d)
  }

  function BatsmanRecorder(name: string): seq<Ball> -> Batting.BatsmanStats
  {
    (d: seq<Ball>) => Batting.BatsmanRecord(name, d)
  }

  function BowlerRecorder(name: string): seq<Ball> -> Bowling.BowlerStats
  {
    (d: seq<Ball>) => Bowling.BowlerRecord(name, d)
  }

  /** The team's report over the selected rows of both its sides. */
  function TeamReport(team: string, rows: seq<Ball>): Envelope<Team.TeamStats, Team.TeamStats>
  {
    var t := Filter(rows, Team.PlaysIn(team));
    var overall := Team.TeamRecord(team, t);
    Report(overall, Grouped(t, Team.Against(team), TeamRecorder(team)),
           Grouped(t, SeasonOf, TeamRecorder(team)),
           Team.TeamDelta(overall, Team.TeamRecord(team, BeforeLast(t))))
  }

  /** The batter's report: the overall record over all selected rows (so
      dismissals as non-striker count), the groups and the before-last record
      over the batter's own deliveries. */
  function BatsmanReport(name: string, rows: seq<Ball>): Envelope<Batting.BatsmanStats, Batting.BatsmanDelta>
  {
    var f := Batting.FacedRows(name, rows);
    var overall := Batting.BatsmanRecord(name, rows);
    Report(overall, Grouped(f, BowlingTeam, BatsmanRecorder(name)),
           Grouped(f, SeasonOf, BatsmanRecorder(name)),
           Batting.Delta(overall, Batting.BatsmanRecord(name, BeforeLast(f))))
  }

  function BowlerReport(name: string, rows: seq<Ball>): Envelope<Bowling.BowlerStats, Bowling.BowlerStats>
  {
    var f := Bowling.BowledRows(name, rows);
    var overall := Bowling.BowlerRecord(name, rows);
    Report(overall, Grouped(f, BattingTeam, BowlerRecorder(name)),
           Grouped(f, SeasonOf, BowlerRecorder(name)),
           Bowling.Delta(overall, Bowling.BowlerRecord(name, BeforeLast(f))))
  }

  /** `teamRecord_API`: the name is checked first, then the seasons, then
      the empty request. */
  function TeamResponse(ms: seq<MatchInfo>, rows: seq<Ball>, team: string, seasons: seq<string>)
    : Outcome<Envelope<Team.TeamStats, Team.TeamStats>>
  {
    if !ValidTeam(ms, team) then Error(InvalidTeam)
    else if !SeasonsValid(ms, seasons) then Error(InvalidSeasons)
    else if seasons == [] then Ok(Empty(NoSeasons))
    else Ok(TeamReport(team, Selected(rows, seasons)))
  }

  function BatsmanResponse(ms: seq<MatchInfo>, rows: seq<Ball>, name: string, seasons: seq<string>)
    : Outcome<Envelope<Batting.BatsmanStats, Batting.BatsmanDelta>>
  {
    if !ValidPlayer(ms, name) then Error(InvalidPlayer)
    else if !SeasonsValid(ms, seasons) then Error(InvalidSeasons)
    else if seasons == [] then Ok(Empty(NoSeasons))
    else Ok(BatsmanReport(name, Selected(rows, seasons)))
  }

  function BowlerResponse(ms: seq<MatchInfo>, rows: seq<Ball>, name: string, seasons: seq<string>)
    : Outcome<Envelope<Bowling.BowlerStats, Bowling.BowlerStats>>
  {
    if !ValidPlayer(ms, name) then Error(InvalidPlayer)
    else if !SeasonsValid(ms, seasons) then Error(InvalidSeasons)
    else if seasons == [] then Ok(Empty(NoSeasons))
    else Ok(BowlerReport(name, Selected(rows, seasons)))
  }

  // ---------------------------------------------------------------- properties of the resolvers

  /** Selecting seasons keeps exactly the rows of the requested seasons,
      and requesting 'All' keeps every row. */
  lemma SelectedRows(rows: seq<Ball>, seasons: seq<string>, x: Ball)
    ensures "All" in seasons ==> Selected(rows, seasons) == rows
    ensures "All" !in seasons ==> (x in Selected(rows, seasons) <==> x in rows && x.season in seasons)
  {
  }

  /** Naming 'All' anywhere in the request gives the answer for ['All'],
      whatever else is named; an empty request gives the degenerate
      envelope once the name is valid. */
  lemma AllDisablesFilter(ms: seq<MatchInfo>, rows: seq<Ball>, team: string, seasons: seq<string>)
    requires "All" in seasons && SeasonsValid(ms, seasons)
    ensures TeamResponse(ms, rows, team, seasons) == TeamResponse(ms, rows, team, ["All"])
    ensures BatsmanResponse(ms, rows, team, seasons) == BatsmanResponse(ms, rows, team, ["All"])
    ensures BowlerResponse(ms, rows, team, seasons) == BowlerResponse(ms, rows, team, ["All"])
  {
    assert SeasonsValid(ms, ["All"]);
  }

  /** An invalid name is reported before anything about the seasons, and
      an invalid season before the empty-request check. */
  lemma ErrorPrecedence(ms: seq<MatchInfo>, rows: seq<Ball>, name: string, seasons: seq<string>)
    ensures !ValidTeam(ms, name) ==> TeamResponse(ms, rows, name, seasons) == Error(InvalidTeam)
    ensures !ValidPlayer(ms, name) ==> BatsmanResponse(ms, rows, name, seasons) == Error(InvalidPlayer)
    ensures !ValidPlayer(ms, name) ==> BowlerResponse(ms, rows, name, seasons) == Error(InvalidPlayer)
    ensures ValidTeam(ms, name) && (exists s :: s in seasons && !ValidSeason(ms, s)) ==>
              TeamResponse(ms, rows, name, seasons) == Error(InvalidSeasons)
    ensures ValidTeam(ms, name) && seasons == [] ==> TeamResponse(ms, rows, name, seasons) == Ok(Empty(NoSeasons))
    ensures ValidPlayer(ms, name) && (exists s :: s in seasons && !ValidSeason(ms, s)) ==>
              BatsmanResponse(ms, rows, name, seasons) == Error(InvalidSeasons)
              && BowlerResponse(ms, rows, name, seasons) == Error(InvalidSeasons)
    ensures ValidPlayer(ms, name) && seasons == [] ==> BatsmanResponse(ms, rows, name, seasons) == Ok(Empty(NoSeasons))
    ensures ValidPlayer(ms, name) && seasons == [] ==> BowlerResponse(ms, rows, name, seasons) == Ok(Empty(NoSeasons))
  {
  }

  /** After preparation a split-year label such as "2007/08" is no longer a
      season of the table, so a request naming it is refused. */
  lemma SplitYearRequestRefused(table: seq<MatchInfo>, rows: seq<Ball>, team: string)
    requires ValidTeam(CanonicalMatches(table), team)
    ensures TeamResponse(CanonicalMatches(table), rows, team, ["2007/08"]) == Error(InvalidSeasons)
  {
    var ms := CanonicalMatches(table);
    SplitYearNotASeason(table);
    assert "2007/08" in ["2007/08"];
    assert !SeasonsValid(ms, ["2007/08"]);
  }

  lemma SplitYearNotASeason(table: seq<MatchInfo>)
    ensures !ValidSeason(CanonicalMatches(table), "2007/08")
  {
    forall m | m in CanonicalMatches(table) ensures m.season != "2007/08" {
      NoSplitYearLabels(table, m);
    }
  }

  /** A team's delta covers exactly its latest match: one match more, and it
      was either won or lost (a no-result counts as a loss in the source). */
  lemma TeamDeltaOneMatch(team: string, rows: seq<Ball>)
    requires Consistent(rows)
    requires Filter(rows, Team.PlaysIn(team)) != []
    ensures TeamReport(team, rows).delta.matches == 1
    ensures TeamReport(team, rows).delta.wins + TeamReport(team, rows).delta.losses == 1
  {
    var t := Filter(rows, Team.PlaysIn(team));
    assert Consistent(t);
    Team.DeltaIsLatestMatch(team, t);
    Team.DeltaResult(team, t);
  }

  /** The sum of the Matches values a team's group map holds for the labels `ks`. */
  function MapMatches(m: map<string, Team.TeamStats>, ks: seq<string>): int
  {
    if ks == [] then 0
    else (if ks[0] in m then m[ks[0]].matches else 0) + MapMatches(m, ks[1..])
  }

  /** A label present in the slice maps to a record whose Matches is the
      number of matches in that label's group. */
  lemma GroupedMatches(team: string, t: seq<Ball>, key: Ball -> string, k: string)
    requires k in Keys(t, key)
    ensures k in Grouped(t, key, TeamRecorder(team))
    ensures Grouped(t, key, TeamRecorder(team))[k].matches == |Ids(Group(t, key, k))|
  {
    var g := Group(t, key, k);
    assert Grouped(t, key, TeamRecorder(team))[k] == Team.TeamRecord(team, g);
    assert Team.TeamRecord(team, g).matches == Team.Matches(g);
  }

  /** In a grouped team map, the Matches values over present labels add up as
      the groups' match counts do. */
  lemma {:induction false} MapMatchesGrouped(team: string, t: seq<Ball>, key: Ball -> string, ks: seq<string>)
    requires forall i :: 0 <= i < |ks| ==> ks[i] in Keys(t, key)
    ensures MapMatches(Grouped(t, key, TeamRecorder(team)), ks) == MatchesOver(t, key, ks)
  {
    if ks != [] {
      GroupedMatches(team, t, key, ks[0]);
      MapMatchesGrouped(team, t, key, ks[1..]);
    }
  }

  /** A team report's parts are the calculator over the team's rows and the
      two groupings of those rows. */
  lemma TeamReportParts(team: string, rows: seq<Ball>)
    ensures var t := Filter(rows, Team.PlaysIn(team));
            && TeamReport(team, rows).overall.matches == Team.Matches(t)
            && TeamReport(team, rows).againstTeam == Grouped(t, Team.Against(team), TeamRecorder(team))
            && TeamReport(team, rows).againstSeason == Grouped(t, SeasonOf, TeamRecorder(team))
  {
    var t := Filter(rows, Team.PlaysIn(team));
    assert Team.TeamRecord(team, t).matches == Team.Matches(t);
  }

  /** Over the rows of one team, the per-opponent and per-season maps each
      hold Matches values that add up to the team's Matches. */
  lemma GroupMapsAddUp(team: string, t: seq<Ball>, opponents: seq<string>, seasons: seq<string>)
    requires Consistent(t)
    requires Distinct(opponents) && Elements(opponents) == Keys(t, Team.Against(team))
    requires Distinct(seasons) && Elements(seasons) == Keys(t, SeasonOf)
    ensures MatchesOver(t, Team.Against(team), opponents) == Team.Matches(t)
    ensures MatchesOver(t, SeasonOf, seasons) == Team.Matches(t)
    ensures MapMatches(Grouped(t, Team.Against(team), TeamRecorder(team)), opponents) == Team.Matches(t)
    ensures MapMatches(Grouped(t, SeasonOf, TeamRecorder(team)), seasons) == Team.Matches(t)
  {
    Team.GroupsCoverMatches(team, t, opponents, seasons);
    assert forall i :: 0 <= i < |opponents| ==> opponents[i] in Elements(opponents);
    assert forall i :: 0 <= i < |seasons| ==> seasons[i] in Elements(seasons);
    MapMatchesGrouped(team, t, Team.Against(team), opponents);
    MapMatchesGrouped(team, t, SeasonOf, seasons);
  }

  /** The per-opponent and per-season row groups of a team report each cover
      the team's matches once. */
  lemma TeamGroupsAddUp(team: string, rows: seq<Ball>, opponents: seq<string>, seasons: seq<string>)
    requires Consistent(rows)
    requires Distinct(opponents) && Elements(opponents) == TeamReport(team, rows).againstTeam.Keys
    requires Distinct(seasons) && Elements(seasons) == TeamReport(team, rows).againstSeason.Keys
    ensures MatchesOver(Filter(rows, Team.PlaysIn(team)), Team.Against(team), opponents)
            == TeamReport(team, rows).overall.matches
    ensures MatchesOver(Filter(rows, Team.PlaysIn(team)), SeasonOf, seasons)
            == TeamReport(team, rows).overall.matches
  {
    var t := Filter(rows, Team.PlaysIn(team));
    TeamReportParts(team, rows);
    GroupedKeys(t, Team.Against(team), TeamRecorder(team));
    GroupedKeys(t, SeasonOf, TeamRecorder(team));
    assert Consistent(t);
    GroupMapsAddUp(team, t, opponents, seasons);
  }

  /** The Matches values of a team report's per-opponent map, and those of
      its per-season map, each add up to the overall Matches. */
  lemma TeamMapsAddUp(team: string, rows: seq<Ball>, opponents: seq<string>, seasons: seq<string>)
    requires Consistent(rows)
    requires Distinct(opponents) && Elements(opponents) == TeamReport(team, rows).againstTeam.Keys
    requires Distinct(seasons) && Elements(seasons) == TeamReport(team, rows).againstSeason.Keys
    ensures MapMatches(TeamReport(team, rows).againstTeam, opponents) == TeamReport(team, rows).overall.matches
    ensures MapMatches(TeamReport(team, rows).againstSeason, seasons) == TeamReport(team, rows).overall.matches
  {
    var t := Filter(rows, Team.PlaysIn(team));
    TeamReportParts(team, rows);
    GroupedKeys(t, Team.Against(team), TeamRecorder(team));
    GroupedKeys(t, SeasonOf, TeamRecorder(team));
    assert Consistent(t);
    GroupMapsAddUp(team, t, opponents, seasons);
  }

  /** The comparison endpoint asks for every season: for a valid player it
      is the unfiltered report. */
  lemma DefaultSeasonsUnfiltered(ms: seq<MatchInfo>, rows: seq<Ball>, name: string)
    requires ValidPlayer(ms, name)
    ensures BatsmanResponse(ms, rows, name, ["All"]) == Ok(BatsmanReport(name, rows))
    ensures BowlerResponse(ms, rows, name, ["All"]) == Ok(BowlerReport(name, rows))
  {
    assert SeasonsValid(ms, ["All"]);
  }

  /** The comparison built player by player, as the endpoint's loop does. */
  function Compared(ms: seq<MatchInfo>, rows: seq<Ball>, players: seq<string>): Comparison
  {
    if players == [] then Comparison(map[], map[])
    else
      var c := Compared(ms, rows, players[..|players| - 1]);
      var p := players[|players| - 1];
      Comparison(c.batsman[p := BatsmanResponse(ms, rows, p, ["All"])],
                 c.bowler[p := BowlerResponse(ms, rows, p, ["All"])])
  }

  /** Every player named, once checked, gets their unfiltered batting report. */
  lemma {:induction false} ComparedBatsmen(ms: seq<MatchInfo>, rows: seq<Ball>, players: seq<string>)
    requires forall p :: p in players ==> ValidPlayer(ms, p)
    ensures Compared(ms, rows, players).batsman.Keys == Elements(players)
    ensures forall p :: p in Compared(ms, rows, players).batsman ==>
              Compared(ms, rows, players).batsman[p] == Ok(BatsmanReport(p, rows))
  {
    if players != [] {
      var init := players[..|players| - 1];
      var p := players[|players| - 1];
      assert players == init + [p];
      ComparedBatsmen(ms, rows, init);
      DefaultSeasonsUnfiltered(ms, rows, p);
      var m := Compared(ms, rows, init).batsman;
      assert Compared(ms, rows, players).batsman == m[p := Ok(BatsmanReport(p, rows))];
    }
  }

  /** Every player named, once checked, gets their unfiltered bowling report. */
  lemma {:induction false} ComparedBowlers(ms: seq<MatchInfo>, rows: seq<Ball>, players: seq<string>)
    requires forall p :: p in players ==> ValidPlayer(ms, p)
    ensures Compared(ms, rows, players).bowler.Keys == Elements(players)
    ensures forall p :: p in Compared(ms, rows, players).bowler ==>
              Compared(ms, rows, players).bowler[p] == Ok(BowlerReport(p, rows))
  {
    if players != [] {
      var init := players[..|players| - 1];
      var p := players[|players| - 1];
      assert players == init + [p];
      ComparedBowlers(ms, rows, init);
      DefaultSeasonsUnfiltered(ms, rows, p);
      var m := Compared(ms, rows, init).bowler;
      assert Compared(ms, rows, players).bowler == m[p := Ok(BowlerReport(p, rows))];
    }
  }

  // ---------------------------------------------------------------- the object

  class IPL {
    /** The match table. */
    var matches: seq<MatchInfo>
    /** The deliveries joined with their match's columns. */
    var ballMatch: seq<Ball>

    /** Takes the two tables as loaded and prepares them. */
    constructor (table: seq<MatchInfo>, joined: seq<Ball>)
      ensures matches == CanonicalMatches(table)
      ensures ballMatch == Prepared(joined)
    {
      matches := table;
      ballMatch := joined;
      new;
      DataOptimization();
    }

    /** Canonicalises season labels and drops super-over deliveries. */
    method DataOptimization()
      modifies this
      ensures matches == CanonicalMatches(old(matches))
      ensures ballMatch == Prepared(old(ballMatch))
    {
      matches := Column(matches, CanonicalMatch);
      ballMatch := Filter(Column(ballMatch, WithCanonicalSeason), RegularInnings());
    }

    /** 'All' followed by the distinct seasons in ascending order. */
    method AllSeasonsAPI() returns (r: Listing)
      ensures |r.items| > 0 && r.items[0] == "All"
      ensures StrictlySorted(r.items[1..])
      ensures forall s :: s in r.items[1..] <==> exists m :: m in matches && m.season == s
      ensures forall s :: s in r.items <==> ValidSeason(matches, s)
      ensures r.total == |r.items|
    {
      var distinct := SortedUnique(Column(matches, SeasonOfMatch));
      var seasons := ["All"] + distinct;
      assert seasons[1..] == distinct;
      forall s ensures s in distinct <==> exists m :: m in matches && m.season == s {
        InColumn(matches, SeasonOfMatch, s);
        assert s in distinct <==> s in Elements(distinct);
      }
      r := Listing(seasons, |seasons|);
    }

    /** The distinct teams over both sides, in ascending order. */
    method AllTeamsAPI() returns (r: Listing)
      ensures StrictlySorted(r.items)
      ensures forall t :: t in r.items <==> ValidTeam(matches, t)
      ensures r.total == |r.items|
    {
      var sides := Column(matches, Team1Of) + Column(matches, Team2Of);
      var teams := SortedUnique(sides);
      forall t ensures t in teams <==> ValidTeam(matches, t) {
        InColumn(matches, Team1Of, t);
        InColumn(matches, Team2Of, t);
        assert t in teams <==> t in Elements(sides);
      }
      r := Listing(teams, |teams|);
    }

    /** The distinct players listed for either side of any match. */
    method AllPlayersAPI() returns (r: Listing)
      ensures StrictlySorted(r.items)
      ensures forall p :: p in r.items <==> ValidPlayer(matches, p)
      ensures r.total == |r.items|
    {
      var listed := Roster(matches, Team1PlayersOf) + Roster(matches, Team2PlayersOf);
      var players := SortedUnique(listed);
      forall p ensures p in players <==> ValidPlayer(matches, p) {
        RosterMembers(matches, Team1PlayersOf, p);
        RosterMembers(matches, Team2PlayersOf, p);
        assert p in players <==> p in Elements(listed);
      }
      r := Listing(players, |players|);
    }

    /** The players a team fielded, from its own side's list in each match. */
    method TeamPlayersAPI(team: string) returns (r: Outcome<Squad>)
      ensures !ValidTeam(matches, team) ==> r == Error(InvalidTeam)
      ensures ValidTeam(matches, team) ==>
        r.Ok? && r.value.team == team && StrictlySorted(r.value.players) &&
        (forall p :: p in r.value.players <==> PlayedFor(matches, team, p)) &&
        r.value.total == |r.value.players|
    {
      var valid := AllTeamsAPI();
      if team !in valid.items {
        return Error(InvalidTeam);
      }
      var listed := SquadNames(matches, team);
      var players := SortedUnique(listed);
      forall p ensures p in players <==> PlayedFor(matches, team, p) {
        SquadMembers(matches, team, p);
        assert p in players <==> p in Elements(listed);
      }
      r := Ok(Squad(team, players, |players|));
    }

    /** `teamRecord_API(team, seasons)`. */
    method TeamRecordAPI(team: string, seasons: seq<string>)
      returns (r: Outcome<Envelope<Team.TeamStats, Team.TeamStats>>)
      ensures r == TeamResponse(matches, ballMatch, team, seasons)
    {
      var teams := AllTeamsAPI();
      if team !in teams.items {
        return Error(InvalidTeam);
      }
      var valid := AllSeasonsAPI();
      var ok := AllIn(seasons, valid.items);
      if !ok {
        return Error(InvalidSeasons);
      }
      if seasons == [] {
        return Ok(Empty(NoSeasons));
      }
      var rows := ballMatch;
      if "All" !in seasons {
        rows := Filter(rows, SeasonIn(seasons));
      }
      var teamDf := Filter(rows, Team.PlaysIn(team));
      var overall := Team.TeamRecord(team, teamDf);
      var before := Team.TeamRecord(team, BeforeLast(teamDf));
      var againstTeam := GroupRecords(teamDf, Team.Against(team), TeamRecorder(team));
      var againstSeason := GroupRecords(teamDf, SeasonOf, TeamRecorder(team));
      r := Ok(Report(overall, againstTeam, againstSeason, Team.TeamDelta(overall, before)));
    }

    /** `batsmanRecord_API(batsman, seasons)`. */
    method BatsmanRecordAPI(name: string, seasons: seq<string>)
      returns (r: Outcome<Envelope<Batting.BatsmanStats, Batting.BatsmanDelta>>)
      ensures r == BatsmanResponse(matches, ballMatch, name, seasons)
    {
      var players := AllPlayersAPI();
      if name !in players.items {
        return Error(InvalidPlayer);
      }
      var valid := AllSeasonsAPI();
      var ok := AllIn(seasons, valid.items);
      if !ok {
        return Error(InvalidSeasons);
      }
      if seasons == [] {
        return Ok(Empty(NoSeasons));
      }
      var rows := ballMatch;
      if "All" !in seasons {
        rows := Filter(rows, SeasonIn(seasons));
      }
      var faced := Batting.FacedRows(name, rows);
      var overall := Batting.BatsmanRecord(name, rows);
      var before := Batting.BatsmanRecord(name, BeforeLast(faced));
      var againstTeam := GroupRecords(faced, BowlingTeam, BatsmanRecorder(name));
      var againstSeason := GroupRecords(faced, SeasonOf, BatsmanRecorder(name));
      r := Ok(Report(overall, againstTeam, againstSeason, Batting.Delta(overall, before)));
    }

    /** `bowlerRecord_API(bowler, seasons)`. */
    method BowlerRecordAPI(name: string, seasons: seq<string>)
      returns (r: Outcome<Envelope<Bowling.BowlerStats, Bowling.BowlerStats>>)
      ensures r == BowlerResponse(matches, ballMatch, name, seasons)
    {
      var players := AllPlayersAPI();
      if name !in players.items {
        return Error(InvalidPlayer);
      }
      var valid := AllSeasonsAPI();
      var ok := AllIn(seasons, valid.items);
      if !ok {
        return Error(InvalidSeasons);
      }
      if seasons == [] {
        return Ok(Empty(NoSeasons));
      }
      var rows := ballMatch;
      if "All" !in seasons {
        rows := Filter(rows, SeasonIn(seasons));
      }
      var bowled := Bowling.BowledRows(name, rows);
      var overall := Bowling.BowlerRecord(name, rows);
      var before := Bowling.BowlerRecord(name, BeforeLast(bowled));
      var againstTeam := GroupRecords(bowled, BattingTeam, BowlerRecorder(name));
      var againstSeason := GroupRecords(bowled, SeasonOf, BowlerRecorder(name));
      r := Ok(Report(overall, againstTeam, againstSeason, Bowling.Delta(overall, before)));
    }

    /** `playerComparison_API(*players)`: both records of every player over
        all seasons, or an error when any player is unknown. */
    method PlayerComparisonAPI(players: seq<string>) returns (r: Outcome<Comparison>)
      ensures (exists p :: p in players && !ValidPlayer(matches, p)) ==> r == Error(InvalidPlayers)
      ensures (forall p :: p in players ==> ValidPlayer(matches, p)) ==>
        r == Ok(Compared(matches, ballMatch, players))
    {
      var valid := AllPlayersAPI();
      var ok := AllIn(players, valid.items);
      if !ok {
        return Error(InvalidPlayers);
      }
      var c := CompareAll(players);
      r := Ok(c);
    }

    /** The loop of `playerComparison_API`, once the players are checked. */
    method CompareAll(players: seq<string>) returns (c: Comparison)
      ensures c == Compared(matches, ballMatch, players)
    {
      var batsman := map[];
      var bowler := map[];
      var i := 0;
      while i < |players|
        invariant 0 <= i <= |players|
        invariant Comparison(batsman, bowler) == Compared(matches, ballMatch, players[..i])
      {
        var p := players[i];
        var bat := BatsmanRecordAPI(p, ["All"]);
        var bowl := BowlerRecordAPI(p, ["All"]);
        batsman := batsman[p := bat];
        bowler := bowler[p := bowl];
        assert players[..i + 1][..i] == players[..i];
        i := i + 1;
      }
      assert players[..i] == players;
      c := Comparison(batsman, bowler);
    }
  }
}
