/** `PlayerSeason` of seasonstats.py: one player's totals for one season,
    built up row by row, and the values derived from them.

    The state changes are specified by pure functions over `Totals`, the
    abstract value of a `PlayerSeason`; the class's methods are proved to
    follow them, and the lemmas here state what those functions promise. */
module PlayerSeasons {
  import opened Results
  import opened Common
  import Dicts
  import Sorting
  import Catalog

  /** The three kinds of season file, each with its own game-count column. */
  datatype Unit = Offense | Defense | Kicking

  function UnitColumn(u: Unit): string {
    match u
    case Offense => "games"
    case Defense => "def_games"
    case Kicking => "kck_games"
  }

  /** The unit as the "Multiple insertion" message names it. */
  function UnitName(u: Unit): string {
    match u
    case Offense => "offense"
    case Defense => "defense"
    case Kicking => "kicking"
  }

  /** The abstract value of a `PlayerSeason`: position weights in the order the
      positions were first seen, the game count per team for each unit, and the
      stat totals. */
  datatype Totals = Totals(
    pid: string,
    name: string,
    positions: Dicts.Dict<real>,
    offGames: map<string, real>,
    defGames: map<string, real>,
    kckGames: map<string, real>,
    stats: map<string, real>)
  {
    ghost predicate Valid() {
      positions.Valid()
    }

    function Games(u: Unit): map<string, real> {
      match u
      case Offense => offGames
      case Defense => defGames
      case Kicking => kckGames
    }

    function WithGames(u: Unit, games: map<string, real>): (t: Totals)
      ensures t.Games(u) == games
      ensures forall v :: v != u ==> t.Games(v) == Games(v)
      ensures t.pid == pid && t.name == name && t.positions == positions && t.stats == stats
    {
      match u
      case Offense => this.(offGames := games)
      case Defense => this.(defGames := games)
      case Kicking => this.(kckGames := games)
    }
  }

  /** `PlayerSeason(pid, name)`: nothing recorded yet. */
  function NewTotals(pid: string, name: string): (t: Totals)
    ensures t.Valid() && t.pid == pid && t.name == name
    ensures t.positions.keys == [] && t.stats == map[]
    ensures forall u :: t.Games(u) == map[]
  {
    Totals(pid, name, Dicts.Empty(), map[], map[], map[], map[])
  }

  // ----- add_row, as a function of the old totals -----

  /** The team a row is credited to: `recent_team` if the row has that column,
      else `team`, else none. */
  function TeamOf(row: Row): (r: Option<string>)
    ensures r.Some? <==> "recent_team" in row || "team" in row
    ensures "recent_team" in row ==> r == Some(row["recent_team"])
  {
    if "recent_team" in row then Some(row["recent_team"])
    else if "team" in row then Some(row["team"])
    else None
  }

  /** The unit of a row: the first of `games`, `def_games`, `kck_games` it has. */
  function UnitOf(row: Row): (r: Option<Unit>)
    ensures r.Some? <==> "games" in row || "def_games" in row || "kck_games" in row
    ensures r.Some? ==> UnitColumn(r.value) in row
    ensures "games" in row ==> r == Some(Offense)
  {
    if "games" in row then Some(Offense)
    else if "def_games" in row then Some(Defense)
    else if "kck_games" in row then Some(Kicking)
    else None
  }

  /** `empty_float(row.get(column, "0"))` */
  function GameCount(row: Row, column: string, parse: FloatParser): (r: Result<real>)
    ensures column !in row ==> r == EmptyFloat(parse, "0")
    ensures column in row && row[column] == "" ==> r == Ok(0.0)
    ensures r.Err? ==> r.error.MalformedNumber?
  {
    EmptyFloat(parse, FieldOr(row, column, "0"))
  }

  /** The first step of add_row: the row's position gains the sum of its three
      game counts. Reading the defaultdict entry records the position with
      weight 0 before the counts are parsed, so a count that fails to parse
      leaves that entry behind. */
  function AddPositionWeight(t: Totals, row: Row, parse: FloatParser): (r: (Totals, Outcome))
    requires t.Valid()
    ensures r.0.Valid()
    ensures r.0 == t.(positions := r.0.positions)
  {
    if "position" !in row then (t, Fail(KeyMissing("position")))
    else
      var pos := row["position"];
      var current := t.positions.Get(pos, 0.0);
      var touched := t.positions.Put(pos, current);
      match GameCount(row, "games", parse)
      case Err(e) => (t.(positions := touched), Fail(e))
      case Ok(off) =>
        match GameCount(row, "def_games", parse)
        case Err(e) => (t.(positions := touched), Fail(e))
        case Ok(def) =>
          match GameCount(row, "kck_games", parse)
          case Err(e) => (t.(positions := touched), Fail(e))
          case Ok(kck) => (t.(positions := touched.Put(pos, current + (off + def + kck))), Pass)
  }

  /** One pass of the stat loop: a stat the row has grows by its parsed value.
      The defaultdict read records the stat at 0 before the value is parsed. */
  function AddStat(stats: map<string, real>, stat: string, row: Row, parse: FloatParser): (r: (map<string, real>, Outcome))
    ensures r.1.Fail? ==> r.1.error.MalformedNumber?
  {
    if stat !in row then (stats, Pass)
    else
      var current := Catalog.Total(stats, stat);
      match EmptyFloat(parse, row[stat])
      case Ok(v) => (stats[stat := current + v], Pass)
      case Err(e) => (stats[stat := current], Fail(e))
  }

  /** The stat loop over `names`, in order, stopping at the first failure. */
  function StatsOver(stats: map<string, real>, names: seq<string>, row: Row, parse: FloatParser): (r: (map<string, real>, Outcome))
    ensures r.1.Fail? ==> r.1.error.MalformedNumber?
    decreases |names|
  {
    if names == [] then (stats, Pass)
    else
      var (s, o) := StatsOver(stats, names[..|names| - 1], row, parse);
      if o.Fail? then (s, o) else AddStat(s, names[|names| - 1], row, parse)
  }

  lemma StatsOverStep(stats: map<string, real>, names: seq<string>, i: nat, row: Row, parse: FloatParser)
    requires i < |names|
    ensures var r := StatsOver(stats, names[..i], row, parse);
      StatsOver(stats, names[..i + 1], row, parse) == if r.1.Fail? then r else AddStat(r.0, names[i], row, parse)
  {
    assert names[..i + 1][..i] == names[..i];
  }

  /** Once the stat loop has raised, the later stats change nothing. */
  lemma {:induction false} StatsOverStops(stats: map<string, real>, names: seq<string>, i: nat, row: Row, parse: FloatParser)
    requires i <= |names| && StatsOver(stats, names[..i], row, parse).1.Fail?
    ensures StatsOver(stats, names, row, parse) == StatsOver(stats, names[..i], row, parse)
    decreases |names| - i
  {
    if i < |names| {
      StatsOverStep(stats, names, i, row, parse);
      StatsOverStops(stats, names, i + 1, row, parse);
    } else {
      assert names[..i] == names;
    }
  }

  /** The totals after the game-count checks of add_row have passed. */
  function RecordGames(t: Totals, row: Row, parse: FloatParser): (r: (Totals, Outcome))
    ensures r.0.positions == t.positions && r.0.stats == t.stats
  {
    match TeamOf(row)
    case None => (t, Fail(MissingTeam(t.pid)))
    case Some(team) =>
      match UnitOf(row)
      case None => (t, Fail(MissingUnit(t.pid)))
      case Some(u) =>
        if team in t.Games(u) then (t, Fail(DuplicateInsertion(UnitName(u), team, t.pid)))
        else
          match EmptyFloat(parse, row[UnitColumn(u)])
          case Ok(count) => (t.WithGames(u, t.Games(u)[team := count]), Pass)
          case Err(e) => (t, Fail(e))
  }

  /** `add_row(row)`: the new totals, and whether it finished or raised. On a
      raise the totals keep every change made before it. */
  function AddRowSpec(t: Totals, row: Row, parse: FloatParser): (r: (Totals, Outcome))
    requires t.Valid()
    ensures r.0.Valid()
    ensures r.0.pid == t.pid && r.0.name == t.name
  {
    AddRowOver(t, row, parse, Catalog.SEASON_STAT_FEATURES)
  }

  /** add_row with the stat loop running over `names`; add_row itself runs it
      over SEASON_STAT_FEATURES. Keeping the list a parameter keeps the
      catalogue out of the proofs that do not depend on it. */
  function AddRowOver(t: Totals, row: Row, parse: FloatParser, names: seq<string>): (r: (Totals, Outcome))
    requires t.Valid()
    ensures r.0.Valid()
    ensures r.0.pid == t.pid && r.0.name == t.name
  {
    var weighed := AddPositionWeight(t, row, parse);
    if weighed.1.Fail? then weighed
    else
      var recorded := RecordGames(weighed.0, row, parse);
      if recorded.1.Fail? then recorded
      else
        var counted := StatsOver(recorded.0.stats, names, row, parse);
        (recorded.0.(stats := counted.0), counted.1)
  }

  // ----- what add_row promises -----

  /** The three game counts a row contributes to its position weight. */
  predicate CountsParse(row: Row, parse: FloatParser) {
    GameCount(row, "games", parse).Ok? && GameCount(row, "def_games", parse).Ok?
    && GameCount(row, "kck_games", parse).Ok?
  }

  function CountSum(row: Row, parse: FloatParser): real
    requires CountsParse(row, parse)
  {
    GameCount(row, "games", parse).value + GameCount(row, "def_games", parse).value
    + GameCount(row, "kck_games", parse).value
  }

  /** With a parser that reads "0" as 0, a game-count column the row lacks
      adds nothing to the position's weight: the weight grows by the counts
      present. */
  lemma MissingCountsAddNothing(row: Row, parse: FloatParser)
    requires parse("0") == Some(0.0) && CountsParse(row, parse)
    ensures "games" !in row ==> GameCount(row, "games", parse) == Ok(0.0)
    ensures "def_games" !in row ==> GameCount(row, "def_games", parse) == Ok(0.0)
    ensures "kck_games" !in row ==> GameCount(row, "kck_games", parse) == Ok(0.0)
    ensures "def_games" !in row && "kck_games" !in row ==> CountSum(row, parse) == GameCount(row, "games", parse).value
  {
  }

  /** A row without a position raises KeyError and changes nothing. */
  lemma MissingPositionChangesNothing(t: Totals, row: Row, parse: FloatParser, names: seq<string>)
    requires t.Valid() && "position" !in row
    ensures AddRowOver(t, row, parse, names) == (t, Fail(KeyMissing("position")))
  {
  }

  /** The position weight grows by the sum of the three game counts whatever
      happens after, including a raise for the team, the unit, a duplicate or
      a stat; a position seen for the first time is listed last. */
  lemma PositionWeightGrowsFirst(t: Totals, row: Row, parse: FloatParser, names: seq<string>)
    requires t.Valid() && "position" in row && CountsParse(row, parse)
    ensures var r := AddRowOver(t, row, parse, names); var pos := row["position"];
      && r.0.positions.Get(pos, 0.0) == t.positions.Get(pos, 0.0) + CountSum(row, parse)
      && (forall k :: k != pos ==> r.0.positions.Get(k, 0.0) == t.positions.Get(k, 0.0))
      && r.0.positions.keys == (if pos in t.positions.values then t.positions.keys else t.positions.keys + [pos])
  {
    PositionStep(t, row, parse);
  }

  /** The position step on its own, the same facts: with the counts parsed it
      passes, and only the position's weight changes, grown by the counts. */
  lemma PositionStep(t: Totals, row: Row, parse: FloatParser)
    requires t.Valid() && "position" in row && CountsParse(row, parse)
    ensures var r := AddPositionWeight(t, row, parse); var pos := row["position"];
      && r.1 == Pass
      && r.0.positions.Get(pos, 0.0) == t.positions.Get(pos, 0.0) + CountSum(row, parse)
      && (forall k :: k != pos ==> r.0.positions.Get(k, 0.0) == t.positions.Get(k, 0.0))
      && r.0.positions.keys == (if pos in t.positions.values then t.positions.keys else t.positions.keys + [pos])
  {
  }

  /** A count that does not parse raises after the position has been recorded
      (with its old weight, or 0 if it is new), with nothing else changed. */
  lemma BadCountKeepsPositionEntry(t: Totals, row: Row, parse: FloatParser, names: seq<string>)
    requires t.Valid() && "position" in row && !CountsParse(row, parse)
    ensures var r := AddRowOver(t, row, parse, names); var pos := row["position"];
      && r.1.Fail?
      && r.0 == t.(positions := t.positions.Put(pos, t.positions.Get(pos, 0.0)))
  {
  }

  /** With the counts parsed, a row with neither `recent_team` nor `team`
      raises "No team" and records no game count and no stat. */
  lemma NoTeamRaises(t: Totals, row: Row, parse: FloatParser, names: seq<string>)
    requires t.Valid() && "position" in row && CountsParse(row, parse)
    requires "recent_team" !in row && "team" !in row
    ensures var r := AddRowOver(t, row, parse, names);
      && r.1 == Fail(MissingTeam(t.pid))
      && r.0.stats == t.stats && (forall u :: r.0.Games(u) == t.Games(u))
  {
  }

  /** With the counts parsed and a team found, a row with no game-count column
      raises "No games count" and records no game count and no stat. */
  lemma NoUnitRaises(t: Totals, row: Row, parse: FloatParser, names: seq<string>)
    requires t.Valid() && "position" in row && CountsParse(row, parse)
    requires TeamOf(row).Some? && UnitOf(row).None?
    ensures var r := AddRowOver(t, row, parse, names);
      && r.1 == Fail(MissingUnit(t.pid))
      && r.0.stats == t.stats && (forall u :: r.0.Games(u) == t.Games(u))
  {
  }

  /** A second row for the same unit and team raises, with no game count and
      no stat recorded; the unit is the first game-count column the row has,
      and the team is `recent_team` before `team`. */
  lemma DuplicateGamesRaise(t: Totals, row: Row, parse: FloatParser, names: seq<string>)
    requires t.Valid() && "position" in row && CountsParse(row, parse)
    requires TeamOf(row).Some? && UnitOf(row).Some?
    requires TeamOf(row).value in t.Games(UnitOf(row).value)
    ensures var r := AddRowOver(t, row, parse, names);
      var team, u := TeamOf(row).value, UnitOf(row).value;
      && r.1 == Fail(DuplicateInsertion(UnitName(u), team, t.pid))
      && r.0.stats == t.stats && (forall v :: r.0.Games(v) == t.Games(v))
  {
    var t1 := AddPositionWeight(t, row, parse).0;
    assert t1.stats == t.stats && forall v :: t1.Games(v) == t.Games(v);
    RecordGamesStep(t1, row, parse);
  }

  /** The first row for a unit and team stores the row's count for them and
      keeps the other units' counts; it does not raise the duplicate error. */
  lemma GameCountRecorded(t: Totals, row: Row, parse: FloatParser, names: seq<string>)
    requires t.Valid() && "position" in row && CountsParse(row, parse)
    requires TeamOf(row).Some? && UnitOf(row).Some?
    requires TeamOf(row).value !in t.Games(UnitOf(row).value)
    ensures var r := AddRowOver(t, row, parse, names);
      var team, u := TeamOf(row).value, UnitOf(row).value;
      && (r.1.Pass? || r.1.error.MalformedNumber?)
      && r.0.Games(u) == t.Games(u)[team := GameCount(row, UnitColumn(u), parse).value]
      && (forall v :: v != u ==> r.0.Games(v) == t.Games(v))
  {
    var t1 := AddPositionWeight(t, row, parse).0;
    assert t1.stats == t.stats && forall v :: t1.Games(v) == t.Games(v);
    RecordGamesStep(t1, row, parse);
    StatsStepKeepsGames(t, row, parse, names);
  }

  /** Once the position and games steps pass, the stat loop decides the
      outcome and leaves the game counts as the games step made them. */
  lemma StatsStepKeepsGames(t: Totals, row: Row, parse: FloatParser, names: seq<string>)
    requires t.Valid() && AddPositionWeight(t, row, parse).1.Pass?
    requires RecordGames(AddPositionWeight(t, row, parse).0, row, parse).1.Pass?
    ensures var r := AddRowOver(t, row, parse, names);
      var t2 := RecordGames(AddPositionWeight(t, row, parse).0, row, parse).0;
      && (r.1.Pass? || r.1.error.MalformedNumber?)
      && (forall v :: r.0.Games(v) == t2.Games(v))
  {
  }

  /** The games step on its own, for a row with a team and a unit whose
      counts parse. */
  lemma RecordGamesStep(t: Totals, row: Row, parse: FloatParser)
    requires CountsParse(row, parse) && TeamOf(row).Some? && UnitOf(row).Some?
    ensures var r := RecordGames(t, row, parse);
      var team, u := TeamOf(row).value, UnitOf(row).value;
      && (team in t.Games(u) ==> r == (t, Fail(DuplicateInsertion(UnitName(u), team, t.pid))))
      && (team !in t.Games(u) ==>
            && r.1 == Pass
            && r.0.Games(u) == t.Games(u)[team := GameCount(row, UnitColumn(u), parse).value]
            && (forall v :: v != u ==> r.0.Games(v) == t.Games(v)))
  {
    var u := UnitOf(row).value;
    assert UnitColumn(u) in row;
    assert FieldOr(row, UnitColumn(u), "0") == row[UnitColumn(u)];
    assert EmptyFloat(parse, row[UnitColumn(u)]).Ok? by {
      match u
      case Offense =>
      case Defense =>
      case Kicking =>
    }
  }

  /** The stat loop finishes exactly when every stat in `names` that the row
      has parses. */
  lemma {:induction false} StatsOverPasses(stats: map<string, real>, names: seq<string>, row: Row, parse: FloatParser)
    ensures StatsOver(stats, names, row, parse).1 == Pass <==>
      forall i :: 0 <= i < |names| && names[i] in row ==> EmptyFloat(parse, row[names[i]]).Ok?
  {
    if names != [] {
      var init := names[..|names| - 1];
      StatsOverPasses(stats, init, row, parse);
      assert forall i :: 0 <= i < |init| ==> init[i] == names[i];
    }
  }

  /** When the stat loop finishes, each stat listed in `names` that the row has
      grew by its parsed value, and every other stat is as it was. */
  lemma {:induction false} StatsOverGrowth(stats: map<string, real>, names: seq<string>, row: Row, parse: FloatParser)
    requires Sorting.Distinct(names)
    requires StatsOver(stats, names, row, parse).1 == Pass
    ensures var s := StatsOver(stats, names, row, parse).0;
      forall k :: if k in names && k in row
        then EmptyFloat(parse, row[k]).Ok? && k in s && s[k] == Catalog.Total(stats, k) + EmptyFloat(parse, row[k]).value
        else (k in s <==> k in stats) && (k in s ==> s[k] == stats[k])
  {
    if names != [] {
      var init, last := names[..|names| - 1], names[|names| - 1];
      assert names == init + [last];
      assert Sorting.Distinct(init);
      assert last !in init;
      StatsOverGrowth(stats, init, row, parse);
    }
  }

  /** After add_row finishes, each listed stat the row has grew by its
      parsed value, and every other stat is as it was. */
  lemma StatsGrow(t: Totals, row: Row, parse: FloatParser, names: seq<string>)
    requires t.Valid() && Sorting.Distinct(names) && AddRowOver(t, row, parse, names).1 == Pass
    ensures var s := AddRowOver(t, row, parse, names).0.stats;
      forall k :: if k in names && k in row
        then EmptyFloat(parse, row[k]).Ok? && k in s && s[k] == Catalog.Total(t.stats, k) + EmptyFloat(parse, row[k]).value
        else (k in s <==> k in t.stats) && (k in s ==> s[k] == t.stats[k])
  {
    var (t1, o1) := AddPositionWeight(t, row, parse);
    var (t2, o2) := RecordGames(t1, row, parse);
    assert o1 == Pass && o2 == Pass && t2.stats == t.stats;
    var (s, o3) := StatsOver(t2.stats, names, row, parse);
    assert AddRowOver(t, row, parse, names) == (t2.(stats := s), o3);
    StatsOverGrowth(t.stats, names, row, parse);
  }

  /** The same for add_row itself: each catalogued stat the row has grew by
      its parsed value; a column outside the catalogue is never summed. */
  lemma CatalogueStatsGrow(t: Totals, row: Row, parse: FloatParser)
    requires t.Valid() && AddRowSpec(t, row, parse).1 == Pass
    ensures var s := AddRowSpec(t, row, parse).0.stats;
      forall k :: if k in Catalog.SEASON_STAT_FEATURES && k in row
        then EmptyFloat(parse, row[k]).Ok? && k in s && s[k] == Catalog.Total(t.stats, k) + EmptyFloat(parse, row[k]).value
        else (k in s <==> k in t.stats) && (k in s ==> s[k] == t.stats[k])
  {
    Catalog.SeasonStatFeaturesDistinct();
    StatsGrow(t, row, parse, Catalog.SEASON_STAT_FEATURES);
  }

  // ----- derived values -----

  /** The positions in the order `roles()` lists them: by accumulated weight,
      heaviest first, ties in the order the positions were first seen. */
  function RoleOrder(positions: Dicts.Dict<real>): (r: seq<string>)
    ensures multiset(r) == multiset(positions.keys)
  {
    Sorting.SortByWeightPermutes(positions.keys, positions.values);
    Sorting.SortByWeightDesc(positions.keys, positions.values)
  }

  /** `roles()` */
  function Roles(positions: Dicts.Dict<real>): (r: string)
    ensures positions.keys == [] ==> r == ""
    ensures |positions.keys| == 1 ==> r == positions.keys[0]
  {
    Sorting.Join(RoleOrder(positions), "/")
  }

  /** `roles()` lists each recorded position once, heaviest first, and
      positions of equal weight in the order they were first seen. */
  lemma RoleOrderIsRanking(positions: Dicts.Dict<real>)
    requires positions.Valid()
    ensures var r := RoleOrder(positions);
      && Sorting.Distinct(r)
      && (forall k :: k in r <==> k in positions.values)
      && (forall i, j :: 0 <= i < j < |r| ==> positions.Get(r[i], 0.0) >= positions.Get(r[j], 0.0))
      && (forall v :: Sorting.WithWeight(r, positions.values, v) == Sorting.WithWeight(positions.keys, positions.values, v))
  {
    var r := RoleOrder(positions);
    forall v ensures Sorting.WithWeight(r, positions.values, v) == Sorting.WithWeight(positions.keys, positions.values, v) {
      Sorting.SortByWeightStable(positions.keys, positions.values, v);
    }
    Sorting.SortByWeightPermutes(positions.keys, positions.values);
    Sorting.SortByWeightSorted(positions.keys, positions.values);
    Sorting.DistinctPermutation(positions.keys, r);
    forall k ensures k in r <==> k in positions.values {
      assert k in r <==> k in multiset(r);
      assert k in positions.keys <==> k in multiset(positions.keys);
    }
  }

  /** `idp_score()` */
  function Score(t: Totals): (r: real)
    ensures (forall i :: 0 <= i < |Catalog.FANTASY_POINTS| ==> Catalog.FANTASY_POINTS[i].0 !in t.stats) ==> r == 0.0
  {
    Catalog.IdpScore(t.stats)
  }

  /** `weight()` */
  function TrainingWeight(t: Totals): (r: real)
    ensures r >= 1.0 && r >= Score(t) / 100.0
  {
    Catalog.ImportanceWeight(Score(t))
  }

  /** The training weight is never below 1, and from a score of 100 up it is
      the score divided by 100. */
  lemma TrainingWeightBounds(t: Totals)
    ensures TrainingWeight(t) >= 1.0
    ensures Score(t) >= 100.0 ==> TrainingWeight(t) == Score(t) / 100.0
    ensures Score(t) <= 100.0 ==> TrainingWeight(t) == 1.0
  {
  }

  // ----- features() -----

  /** `_numeric_features()`: the stat totals in catalogue order. */
  function StatBlock(stats: map<string, real>): (v: seq<real>)
    ensures |v| == |Catalog.SEASON_STAT_FEATURES|
  {
    TotalsOf(stats, Catalog.SEASON_STAT_FEATURES)
  }

  /** The totals of `names`, in order, 0 for a name not recorded. */
  function TotalsOf(totals: map<string, real>, names: seq<string>): (v: seq<real>)
    ensures |v| == |names|
    ensures forall i :: 0 <= i < |names| ==> v[i] == Catalog.Total(totals, names[i])
  {
    seq(|names|, i requires 0 <= i < |names| => Catalog.Total(totals, names[i]))
  }

  /** One unit's part of `_team_features()`: the game count per team, in
      TEAMS order, 0 for a team not recorded. */
  function TeamBlock(games: map<string, real>): (v: seq<real>)
    ensures |v| == |TEAMS|
  {
    TotalsOf(games, TEAMS)
  }

  /** `_position_features()`: the position weights in POSITIONS order. */
  function PositionBlock(positions: Dicts.Dict<real>): (v: seq<real>)
    ensures |v| == |POSITIONS|
  {
    WeightsOf(positions, POSITIONS)
  }

  /** The weights of `names`, in order, 0 for a name not recorded. */
  function WeightsOf(positions: Dicts.Dict<real>, names: seq<string>): (v: seq<real>)
    ensures |v| == |names|
    ensures forall p :: 0 <= p < |names| ==> v[p] == positions.Get(names[p], 0.0)
  {
    seq(|names|, p requires 0 <= p < |names| => positions.Get(names[p], 0.0))
  }

  /** The stat and team blocks, which `features()` reads without changing anything. */
  function LeadingBlocks(t: Totals): seq<real> {
    StatBlock(t.stats) + TeamBlock(t.offGames) + TeamBlock(t.defGames) + TeamBlock(t.kckGames)
  }

  /** The values `features()` returns. */
  function FeatureVector(t: Totals): (v: seq<real>)
    ensures |v| == Catalog.NUM_SEASON_FEATURES
    ensures v[..97] == StatBlock(t.stats) && v[193..] == PositionBlock(t.positions)
  {
    Catalog.SeasonStatFeaturesCount();
    Catalog.SeasonFeatureCount();
    LeadingBlocks(t) + PositionBlock(t.positions)
  }

  /** The start of each unit's team block in a season feature vector. */
  function TeamSlot(u: Unit, team: nat): nat {
    var base := match u case Offense => 0 case Defense => 1 case Kicking => 2;
    97 + base * 32 + team
  }

  /** `features()` has NUM_SEASON_FEATURES slots: the 97 stat totals in
      catalogue order, then 32 game counts for each of offense, defense and
      kicking in TEAMS order, then the 21 position weights in POSITIONS order. */
  lemma FeatureVectorLayout(t: Totals)
    ensures var v := FeatureVector(t);
      && |v| == Catalog.NUM_SEASON_FEATURES
      && (forall i :: 0 <= i < 97 ==> v[i] == Catalog.Total(t.stats, Catalog.SEASON_STAT_FEATURES[i]))
      && (forall u, j :: 0 <= j < 32 ==> v[TeamSlot(u, j)] == Catalog.Total(t.Games(u), TEAMS[j]))
      && (forall p :: 0 <= p < 21 ==> v[193 + p] == t.positions.Get(POSITIONS[p], 0.0))
  {
    Catalog.SeasonStatFeaturesCount();
    Catalog.SeasonFeatureCount();
    var s, o, d, k, p := StatBlock(t.stats), TeamBlock(t.offGames), TeamBlock(t.defGames), TeamBlock(t.kckGames), PositionBlock(t.positions);
    BlockSlots(FeatureVector(t), s, o, d, k, p);
    forall u, j | 0 <= j < 32 ensures FeatureVector(t)[TeamSlot(u, j)] == Catalog.Total(t.Games(u), TEAMS[j]) {
      match u
      case Offense =>
      case Defense =>
      case Kicking =>
    }
  }

  /** Where each block lands in the concatenation of a 97-slot stat block,
      three 32-slot team blocks and a 21-slot position block. */
  lemma BlockSlots(v: seq<real>, s: seq<real>, o: seq<real>, d: seq<real>, k: seq<real>, p: seq<real>)
    requires |s| == 97 && |o| == 32 && |d| == 32 && |k| == 32 && |p| == 21
    requires v == s + o + d + k + p
    ensures |v| == 214
    ensures forall i :: 0 <= i < 97 ==> v[i] == s[i]
    ensures forall j :: 0 <= j < 32 ==> v[97 + j] == o[j] && v[129 + j] == d[j] && v[161 + j] == k[j]
    ensures forall q :: 0 <= q < 21 ==> v[193 + q] == p[q]
  {
  }

  /** The position entries `_position_features()` creates by reading the
      defaultdict: each name not yet recorded is added with weight 0, in order. */
  function Fill(positions: Dicts.Dict<real>, names: seq<string>): (d: Dicts.Dict<real>)
    requires positions.Valid()
    ensures d.Valid()
    decreases |names|
  {
    if names == [] then positions
    else
      var d := Fill(positions, names[..|names| - 1]);
      var last := names[|names| - 1];
      d.Put(last, d.Get(last, 0.0))
  }

  /** The totals after `features()`. */
  function FillPositions(t: Totals): (r: Totals)
    requires t.Valid()
    ensures r.Valid()
  {
    t.(positions := Fill(t.positions, POSITIONS))
  }

  /** Filling keeps every weight. */
  lemma {:induction false} FillKeepsWeights(positions: Dicts.Dict<real>, names: seq<string>)
    requires positions.Valid()
    ensures forall k :: Fill(positions, names).Get(k, 0.0) == positions.Get(k, 0.0)
  {
    if names != [] {
      FillKeepsWeights(positions, names[..|names| - 1]);
    }
  }

  /** Filling keeps the recorded positions first, in their order, and records
      every name it was given. */
  lemma {:induction false} FillRecordsNames(positions: Dicts.Dict<real>, names: seq<string>)
    requires positions.Valid()
    ensures var d := Fill(positions, names);
      && |positions.keys| <= |d.keys| && d.keys[..|positions.keys|] == positions.keys
      && (forall k :: k in d.values <==> k in positions.values || k in names)
  {
    if names != [] {
      var init := names[..|names| - 1];
      FillRecordsNames(positions, init);
      var d := Fill(positions, init);
      assert names == init + [names[|names| - 1]];
      assert Fill(positions, names).keys[..|d.keys|] == d.keys;
    }
  }

  /** One more name filled: the next entry of the position block is the
      weight read, which the fill so far has not changed. */
  lemma FillStep(positions: Dicts.Dict<real>, names: seq<string>, i: nat)
    requires positions.Valid() && i < |names|
    ensures var d := Fill(positions, names[..i]);
      && Fill(positions, names[..i + 1]) == d.Put(names[i], d.Get(names[i], 0.0))
      && d.Get(names[i], 0.0) == positions.Get(names[i], 0.0)
  {
    assert names[..i + 1][..i] == names[..i];
    FillKeepsWeights(positions, names[..i]);
  }

  lemma WeightsPrefix(positions: Dicts.Dict<real>, names: seq<string>, i: nat)
    requires i < |names|
    ensures WeightsOf(positions, names)[..i + 1] == WeightsOf(positions, names)[..i] + [positions.Get(names[i], 0.0)]
  {
  }

  /** Reading the position block again adds nothing more. */
  lemma {:induction false} FillIdempotent(positions: Dicts.Dict<real>, names: seq<string>)
    requires positions.Valid()
    ensures Fill(Fill(positions, names), names) == Fill(positions, names)
  {
    var d := Fill(positions, names);
    FillRecordsNames(positions, names);
    FillAgain(d, names, names);
  }

  lemma {:induction false} FillAgain(d: Dicts.Dict<real>, names: seq<string>, all: seq<string>)
    requires d.Valid()
    requires forall k :: k in all ==> k in d.values
    requires forall i :: 0 <= i < |names| ==> names[i] in all
    ensures Fill(d, names) == d
  {
    if names != [] {
      FillAgain(d, names[..|names| - 1], all);
      assert names[|names| - 1] in all;
    }
  }

  /** The feature values are the same before and after the fill, and after it
      every position of POSITIONS has an entry, so a later `roles()` lists it. */
  lemma FillKeepsFeatures(t: Totals)
    requires t.Valid()
    ensures FeatureVector(FillPositions(t)) == FeatureVector(t)
    ensures Score(FillPositions(t)) == Score(t)
    ensures forall p :: p in POSITIONS ==> p in FillPositions(t).positions.values
  {
    FillKeepsWeights(t.positions, POSITIONS);
    FillRecordsNames(t.positions, POSITIONS);
    assert PositionBlock(FillPositions(t).positions) == PositionBlock(t.positions);
  }

  // ----- the object -----

  /** `PlayerSeason`: the dictionaries of the source are fields that the
      methods reassign. */
  class PlayerSeason {
    const pid: string
    const name: string
    var positions: Dicts.Dict<real>
    var offGames: map<string, real>
    var defGames: map<string, real>
    var kckGames: map<string, real>
    var stats: map<string, real>

    ghost predicate Valid()
      reads this
    {
      positions.Valid()
    }

    /** The abstract value of this object. */
    function State(): Totals
      reads this
    {
      Totals(pid, name, positions, offGames, defGames, kckGames, stats)
    }

    constructor(pid: string, name: string)
      ensures Valid() && State() == NewTotals(pid, name)
    {
      this.pid := pid;
      this.name := name;
      positions := Dicts.Empty();
      offGames, defGames, kckGames := map[], map[], map[];
      stats := map[];
    }

    /** `add_row(row)`; a raise is returned as a failed outcome, and the
        changes made before it stay. */
    method AddRow(row: Row, parse: FloatParser) returns (outcome: Outcome)
      requires Valid()
      modifies this
      ensures Valid()
      ensures (State(), outcome) == AddRowSpec(old(State()), row, parse)
    {
      outcome := AddRowOverNames(Catalog.SEASON_STAT_FEATURES, row, parse);
    }

    /** The body of add_row, with its stat loop over `names`. */
    method AddRowOverNames(names: seq<string>, row: Row, parse: FloatParser) returns (outcome: Outcome)
      requires Valid()
      modifies this
      ensures Valid()
      ensures (State(), outcome) == AddRowOver(old(State()), row, parse, names)
    {
      outcome := WeighPosition(row, parse);
      if outcome.Fail? {
        return;
      }
      outcome := RecordTeamGames(row, parse);
      if outcome.Fail? {
        return;
      }
      outcome := AddStats(names, row, parse);
    }

    /** The first step of add_row: the row's position gains the row's games,
        its entry made first (at 0) so that a count failing to parse leaves it. */
    method WeighPosition(row: Row, parse: FloatParser) returns (outcome: Outcome)
      requires Valid()
      modifies this
      ensures Valid()
      ensures (State(), outcome) == AddPositionWeight(old(State()), row, parse)
    {
      if "position" !in row {
        return Fail(KeyMissing("position"));
      }
      var pos := row["position"];
      var current := positions.Get(pos, 0.0);
      positions := positions.Put(pos, current);
      var off := GameCount(row, "games", parse);
      if off.Err? {
        return Fail(off.error);
      }
      var def := GameCount(row, "def_games", parse);
      if def.Err? {
        return Fail(def.error);
      }
      var kck := GameCount(row, "kck_games", parse);
      if kck.Err? {
        return Fail(kck.error);
      }
      positions := positions.Put(pos, current + (off.value + def.value + kck.value));
      return Pass;
    }

    /** The second step of add_row: the games of the row's unit for the row's
        team, raising on a missing team or unit or a team already recorded. */
    method RecordTeamGames(row: Row, parse: FloatParser) returns (outcome: Outcome)
      requires Valid()
      modifies this
      ensures Valid()
      ensures (State(), outcome) == RecordGames(old(State()), row, parse)
    {
      var team: string;
      if "recent_team" in row {
        team := row["recent_team"];
      } else if "team" in row {
        team := row["team"];
      } else {
        return Fail(MissingTeam(pid));
      }
      if "games" in row {
        if team in offGames {
          return Fail(DuplicateInsertion("offense", team, pid));
        }
        var count := EmptyFloat(parse, row["games"]);
        if count.Err? {
          return Fail(count.error);
        }
        offGames := offGames[team := count.value];
      } else if "def_games" in row {
        if team in defGames {
          return Fail(DuplicateInsertion("defense", team, pid));
        }
        var count := EmptyFloat(parse, row["def_games"]);
        if count.Err? {
          return Fail(count.error);
        }
        defGames := defGames[team := count.value];
      } else if "kck_games" in row {
        if team in kckGames {
          return Fail(DuplicateInsertion("kicking", team, pid));
        }
        var count := EmptyFloat(parse, row["kck_games"]);
        if count.Err? {
          return Fail(count.error);
        }
        kckGames := kckGames[team := count.value];
      } else {
        return Fail(MissingUnit(pid));
      }
      return Pass;
    }

    /** The stat loop of add_row over `names`: each stat the row has grows by
        its parsed value, until a value fails to parse. */
    method AddStats(names: seq<string>, row: Row, parse: FloatParser) returns (outcome: Outcome)
      modifies this
      ensures (stats, outcome) == StatsOver(old(stats), names, row, parse)
      ensures positions == old(positions) && offGames == old(offGames)
      ensures defGames == old(defGames) && kckGames == old(kckGames)
    {
      ghost var s0 := stats;
      var s := stats;
      outcome := Pass;
      var i := 0;
      while i < |names|
        invariant 0 <= i <= |names|
        invariant unchanged(this)
        invariant StatsOver(s0, names[..i], row, parse) == (s, Pass)
      {
        var stat := names[i];
        StatsOverStep(s0, names, i, row, parse);
        if stat in row {
          var total := Catalog.Total(s, stat);
          var v := EmptyFloat(parse, row[stat]);
          if v.Err? {
            s := s[stat := total];
            StatsOverStops(s0, names, i + 1, row, parse);
            outcome := Fail(v.error);
            break;
          }
          s := s[stat := total + v.value];
        }
        i := i + 1;
      }
      if outcome.Pass? {
        assert names[..i] == names;
      }
      stats := s;
    }

    /** `roles()` */
    function RolesText(): (r: string)
      reads this
      ensures r == Roles(positions)
      ensures positions.keys == [] ==> r == ""
    {
      Roles(positions)
    }

    /** `idp_score()` */
    function IdpScore(): (r: real)
      reads this
      ensures r == Score(State())
      ensures stats == map[] ==> r == 0.0
    {
      Score(State())
    }

    /** `weight()` */
    function Weight(): (r: real)
      reads this
      ensures r == TrainingWeight(State()) && r >= 1.0
    {
      TrainingWeight(State())
    }

    /** `features()`. Reading each position through the defaultdict records
        the positions not yet seen with weight 0, after the recorded ones. */
    method Features() returns (v: seq<real>)
      requires Valid()
      modifies this
      ensures Valid()
      ensures v == FeatureVector(old(State()))
      ensures State() == FillPositions(old(State()))
    {
      var head := LeadingBlocks(State());
      var block := ReadWeights(POSITIONS);
      v := head + block;
    }

    /** The loop of `_position_features` over `names`: each name's weight is
        read through the defaultdict, which records a name not yet seen. */
    method ReadWeights(names: seq<string>) returns (block: seq<real>)
      requires Valid()
      modifies this
      ensures Valid()
      ensures block == WeightsOf(old(positions), names)
      ensures positions == Fill(old(positions), names)
      ensures stats == old(stats) && offGames == old(offGames)
      ensures defGames == old(defGames) && kckGames == old(kckGames)
    {
      ghost var before := positions;
      block := [];
      var i := 0;
      while i < |names|
        invariant 0 <= i <= |names|
        invariant stats == old(stats) && offGames == old(offGames)
        invariant defGames == old(defGames) && kckGames == old(kckGames)
        invariant positions == Fill(before, names[..i])
        invariant block == WeightsOf(before, names)[..i]
      {
        var name := names[i];
        FillStep(before, names, i);
        WeightsPrefix(before, names, i);
        var w := positions.Get(name, 0.0);
        positions := positions.Put(name, w);
        block := block + [w];
        i := i + 1;
      }
      assert names[..i] == names;
      assert WeightsOf(before, names)[..i] == WeightsOf(before, names);
    }
  }
}
