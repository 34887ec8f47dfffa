/** The order in which a season's files are read does not matter to the
    totals: `SeasonStats` reads the offense, defense and kicking files in
    that order, and any other order, or any shuffle of their rows, raises in
    the same cases and otherwise credits every player with the same stat
    totals, game counts and position weights. Only the error raised, the
    name a player is stored under (that of its first row) and the order in
    which positions and players are listed depend on the order of the rows.

    Every raise of `add_row` depends on the row alone, except "Multiple
    insertion", which depends on a second row for the same player, unit and
    team; exact sums do not depend on the order of their terms; and a game count
    is written once. The lemmas below make that argument one row swap at a
    time. */
module SeasonOrder {
  import opened Results
  import opened Common
  import Dicts
  import Sorting
  import opened PlayerSeasons
  import opened Seasons

  /** Two players agree on everything the order of rows cannot change. */
  ghost predicate SameTotals(a: Totals, b: Totals) {
    && a.pid == b.pid
    && a.positions.values == b.positions.values
    && a.stats == b.stats
    && a.offGames == b.offGames && a.defGames == b.defGames && a.kckGames == b.kckGames
  }

  /** Two leagues hold the same players, each with the same totals. */
  ghost predicate SameLeague(a: Dicts.Dict<Totals>, b: Dicts.Dict<Totals>) {
    && (forall pid :: pid in a.values <==> pid in b.values)
    && (forall pid :: pid in a.values && pid in b.values ==> SameTotals(a.values[pid], b.values[pid]))
  }

  /** Two loads both raise, or both finish with the same players and totals. */
  ghost predicate SameLoad(r: (Dicts.Dict<Totals>, Outcome), s: (Dicts.Dict<Totals>, Outcome)) {
    r.1.Pass? == s.1.Pass? && (r.1.Pass? ==> SameLeague(r.0, s.0))
  }

  /** One more row after a load: nothing once the load has raised. */
  function Then(r: (Dicts.Dict<Totals>, Outcome), row: Row, seasonType: string, parse: FloatParser, names: seq<string>): (s: (Dicts.Dict<Totals>, Outcome))
    requires LeagueValid(r.0)
    ensures LeagueValid(s.0)
  {
    if r.1.Fail? then r else LoadRow(r.0, row, seasonType, parse, names)
  }

  // ----- one player -----

  /** A row `add_row` can take without raising, whatever the player. */
  predicate Clean(row: Row, parse: FloatParser, names: seq<string>) {
    && "position" in row && CountsParse(row, parse)
    && TeamOf(row).Some? && UnitOf(row).Some?
    && forall i :: 0 <= i < |names| && names[i] in row ==> EmptyFloat(parse, row[names[i]]).Ok?
  }

  /** The player already has a game count for the row's unit and team. */
  predicate Clashes(t: Totals, row: Row) {
    TeamOf(row).Some? && UnitOf(row).Some? && TeamOf(row).value in t.Games(UnitOf(row).value)
  }

  /** `add_row` finishes exactly when the row is clean and the player has no
      count yet for the row's unit and team. */
  lemma AddRowPasses(t: Totals, row: Row, parse: FloatParser, names: seq<string>)
    requires t.Valid()
    ensures AddRowOver(t, row, parse, names).1.Pass? <==> Clean(row, parse, names) && !Clashes(t, row)
  {
    if "position" !in row {
      MissingPositionChangesNothing(t, row, parse, names);
    } else if !CountsParse(row, parse) {
      BadCountKeepsPositionEntry(t, row, parse, names);
    } else if TeamOf(row).None? {
      NoTeamRaises(t, row, parse, names);
    } else if UnitOf(row).None? {
      NoUnitRaises(t, row, parse, names);
    } else if Clashes(t, row) {
      DuplicateGamesRaise(t, row, parse, names);
    } else {
      var t1 := AddPositionWeight(t, row, parse).0;
      assert forall v :: t1.Games(v) == t.Games(v);
      RecordGamesStep(t1, row, parse);
      StatsOverPasses(RecordGames(t1, row, parse).0.stats, names, row, parse);
    }
  }

  /** What a finished `add_row` made of the player `t`, as `r`: the row was
      clean and did not clash; the position's weight grew by the row's game
      counts, the unit's count for the team is the row's, and the stats went
      through the stat loop. */
  ghost predicate Credited(t: Totals, row: Row, parse: FloatParser, names: seq<string>, r: Totals) {
    && Clean(row, parse, names) && !Clashes(t, row)
    && var pos := row["position"];
    && r.pid == t.pid
    && r.positions.values == t.positions.values[pos := t.positions.Get(pos, 0.0) + CountSum(row, parse)]
    && (forall v :: r.Games(v) == Recorded(t.Games(v), row, parse, v))
    && r.stats == StatsOver(t.stats, names, row, parse).0
  }

  /** One unit's game counts after a row with a team and a unit: the row's
      count under its team if the row is for that unit. */
  function Recorded(g: map<string, real>, row: Row, parse: FloatParser, v: Unit): map<string, real>
    requires TeamOf(row).Some? && CountsParse(row, parse)
  {
    if UnitOf(row) == Some(v) then g[TeamOf(row).value := GameCount(row, UnitColumn(v), parse).value] else g
  }

  lemma AddRowEffect(t: Totals, row: Row, parse: FloatParser, names: seq<string>)
    requires t.Valid() && AddRowOver(t, row, parse, names).1.Pass?
    ensures Credited(t, row, parse, names, AddRowOver(t, row, parse, names).0)
  {
    AddRowPasses(t, row, parse, names);
    WeightEffect(t, row, parse, names);
    GamesEffect(t, row, parse, names);
  }

  lemma WeightEffect(t: Totals, row: Row, parse: FloatParser, names: seq<string>)
    requires t.Valid() && "position" in row && CountsParse(row, parse)
    ensures var r := AddRowOver(t, row, parse, names).0; var pos := row["position"];
      r.positions.values == t.positions.values[pos := t.positions.Get(pos, 0.0) + CountSum(row, parse)]
  {
    PositionsKept(t, row, parse, names);
    PositionStepValues(t, row, parse);
  }

  lemma PositionStepValues(t: Totals, row: Row, parse: FloatParser)
    requires t.Valid() && "position" in row && CountsParse(row, parse)
    ensures AddPositionWeight(t, row, parse).0.positions.values == Weighted(t.positions.values, row, parse)
  {
    var pos := row["position"];
    PositionStep(t, row, parse);
    GrownValues(t.positions, AddPositionWeight(t, row, parse).0.positions, pos, t.positions.Get(pos, 0.0) + CountSum(row, parse));
  }

  /** Position weights after a row's counts are added to its position. */
  function Weighted(weights: map<string, real>, row: Row, parse: FloatParser): map<string, real>
    requires "position" in row && CountsParse(row, parse)
  {
    var pos := row["position"];
    weights[pos := (if pos in weights then weights[pos] else 0.0) + CountSum(row, parse)]
  }

  lemma PositionStepPasses(t: Totals, row: Row, parse: FloatParser)
    requires t.Valid() && "position" in row && CountsParse(row, parse)
    ensures AddPositionWeight(t, row, parse).1 == Pass
  {
  }

  /** A dictionary that differs from another only at `pos`, where it holds `w`,
      and lists `pos` as assignment does, has the other's map updated at `pos`. */
  lemma GrownValues(before: Dicts.Dict<real>, after: Dicts.Dict<real>, pos: string, w: real)
    requires before.Valid() && after.Valid()
    requires after.Get(pos, 0.0) == w
    requires forall k :: k != pos ==> after.Get(k, 0.0) == before.Get(k, 0.0)
    requires after.keys == if pos in before.values then before.keys else before.keys + [pos]
    ensures after.values == before.values[pos := w]
  {
    forall k
      ensures (k in after.values <==> k in before.values[pos := w])
      ensures k in after.values ==> after.values[k] == before.values[pos := w][k]
    {
      assert k in after.values <==> k in after.keys;
      assert k != pos ==> after.Get(k, 0.0) == before.Get(k, 0.0);
    }
  }

  /** With a count that does not parse, the position step records the position
      with the weight it had, and raises the first count's error. */
  lemma PositionStepFails(t: Totals, row: Row, parse: FloatParser)
    requires t.Valid() && "position" in row && !CountsParse(row, parse)
    ensures var pos := row["position"]; var r := AddPositionWeight(t, row, parse);
      && r.0.positions.values == t.positions.values[pos := t.positions.Get(pos, 0.0)]
      && r.1 == Fail(FirstCountError(row, parse))
  {
  }

  /** The error of the first of the three game counts that does not parse. */
  function FirstCountError(row: Row, parse: FloatParser): Error
    requires !CountsParse(row, parse)
  {
    if GameCount(row, "games", parse).Err? then GameCount(row, "games", parse).error
    else if GameCount(row, "def_games", parse).Err? then GameCount(row, "def_games", parse).error
    else GameCount(row, "kck_games", parse).error
  }

  /** After the position step, `add_row` leaves the positions alone. */
  lemma PositionsKept(t: Totals, row: Row, parse: FloatParser, names: seq<string>)
    requires t.Valid()
    ensures AddRowOver(t, row, parse, names).0.positions == AddPositionWeight(t, row, parse).0.positions
  {
  }

  lemma GamesEffect(t: Totals, row: Row, parse: FloatParser, names: seq<string>)
    requires t.Valid() && "position" in row && CountsParse(row, parse)
    requires TeamOf(row).Some? && UnitOf(row).Some? && !Clashes(t, row)
    ensures var r := AddRowOver(t, row, parse, names).0;
      forall v :: r.Games(v) == Recorded(t.Games(v), row, parse, v)
  {
    GameCountRecorded(t, row, parse, names);
    var r, u := AddRowOver(t, row, parse, names).0, UnitOf(row).value;
    forall v
      ensures r.Games(v) == Recorded(t.Games(v), row, parse, v)
    {
      if v != u {
        assert UnitOf(row) != Some(v);
      }
    }
  }

  /** `add_row` on two players that agree gives players that agree, with the
      same outcome. */
  lemma AddRowAgrees(a: Totals, b: Totals, row: Row, parse: FloatParser, names: seq<string>)
    requires a.Valid() && b.Valid() && SameTotals(a, b)
    ensures AddRowOver(a, row, parse, names).1 == AddRowOver(b, row, parse, names).1
    ensures SameTotals(AddRowOver(a, row, parse, names).0, AddRowOver(b, row, parse, names).0)
  {
    PositionStepAgrees(a, b, row, parse);
    var wa, wb := AddPositionWeight(a, row, parse), AddPositionWeight(b, row, parse);
    if wa.1.Pass? {
      GamesStepAgrees(wa.0, wb.0, row, parse);
    }
  }

  lemma PositionStepAgrees(a: Totals, b: Totals, row: Row, parse: FloatParser)
    requires a.Valid() && b.Valid() && SameTotals(a, b)
    ensures AddPositionWeight(a, row, parse).1 == AddPositionWeight(b, row, parse).1
    ensures SameTotals(AddPositionWeight(a, row, parse).0, AddPositionWeight(b, row, parse).0)
  {
    var ra, rb := AddPositionWeight(a, row, parse), AddPositionWeight(b, row, parse);
    PositionValuesAgree(a, b, row, parse);
    assert ra.0 == a.(positions := ra.0.positions) && rb.0 == b.(positions := rb.0.positions);
  }

  /** The position step's outcome and weights depend only on the weights it
      starts from. */
  lemma PositionValuesAgree(a: Totals, b: Totals, row: Row, parse: FloatParser)
    requires a.Valid() && b.Valid() && a.positions.values == b.positions.values
    ensures AddPositionWeight(a, row, parse).1 == AddPositionWeight(b, row, parse).1
    ensures AddPositionWeight(a, row, parse).0.positions.values == AddPositionWeight(b, row, parse).0.positions.values
  {
    if "position" in row {
      if CountsParse(row, parse) {
        ParsedValuesAgree(a, b, row, parse);
      } else {
        FailedValuesAgree(a, b, row, parse);
      }
    }
  }

  lemma ParsedValuesAgree(a: Totals, b: Totals, row: Row, parse: FloatParser)
    requires a.Valid() && b.Valid() && a.positions.values == b.positions.values
    requires "position" in row && CountsParse(row, parse)
    ensures AddPositionWeight(a, row, parse).1 == Pass && AddPositionWeight(b, row, parse).1 == Pass
    ensures AddPositionWeight(a, row, parse).0.positions.values == AddPositionWeight(b, row, parse).0.positions.values
  {
    PositionStepPasses(a, row, parse);
    PositionStepPasses(b, row, parse);
    PositionStepValues(a, row, parse);
    PositionStepValues(b, row, parse);
  }

  lemma FailedValuesAgree(a: Totals, b: Totals, row: Row, parse: FloatParser)
    requires a.Valid() && b.Valid() && a.positions.values == b.positions.values
    requires "position" in row && !CountsParse(row, parse)
    ensures AddPositionWeight(a, row, parse).1 == AddPositionWeight(b, row, parse).1
    ensures AddPositionWeight(a, row, parse).0.positions.values == AddPositionWeight(b, row, parse).0.positions.values
  {
    assert a.positions.Get(row["position"], 0.0) == b.positions.Get(row["position"], 0.0);
    PositionStepFails(a, row, parse);
    PositionStepFails(b, row, parse);
  }

  lemma GamesStepAgrees(a: Totals, b: Totals, row: Row, parse: FloatParser)
    requires SameTotals(a, b)
    ensures RecordGames(a, row, parse).1 == RecordGames(b, row, parse).1
    ensures SameTotals(RecordGames(a, row, parse).0, RecordGames(b, row, parse).0)
  {
    assert forall u :: a.Games(u) == b.Games(u);
  }

  /** `after` is `before` with each stat of `names` the row has grown by its
      parsed value. */
  ghost predicate Grown(before: map<string, real>, after: map<string, real>, names: seq<string>, row: Row, parse: FloatParser) {
    forall k :: if k in names && k in row
      then EmptyFloat(parse, row[k]).Ok? && k in after && after[k] == Catalog.Total(before, k) + EmptyFloat(parse, row[k]).value
      else (k in after <==> k in before) && (k in after ==> after[k] == before[k])
  }

  lemma StatsGrown(s: map<string, real>, names: seq<string>, row: Row, parse: FloatParser)
    requires Sorting.Distinct(names) && StatsOver(s, names, row, parse).1 == Pass
    ensures Grown(s, StatsOver(s, names, row, parse).0, names, row, parse)
  {
    StatsOverGrowth(s, names, row, parse);
  }

  /** Whether the stat loop finishes does not depend on the totals. */
  lemma StatsPassAnywhere(s: map<string, real>, s': map<string, real>, names: seq<string>, row: Row, parse: FloatParser)
    ensures StatsOver(s, names, row, parse).1 == Pass <==> StatsOver(s', names, row, parse).1 == Pass
  {
    StatsOverPasses(s, names, row, parse);
    StatsOverPasses(s', names, row, parse);
  }

  /** The stat loops of two rows, when both finish, give the same totals in
      either order. */
  lemma StatsCommute(s: map<string, real>, names: seq<string>, x: Row, y: Row, parse: FloatParser)
    requires Sorting.Distinct(names)
    requires StatsOver(s, names, x, parse).1 == Pass && StatsOver(s, names, y, parse).1 == Pass
    ensures StatsOver(StatsOver(s, names, x, parse).0, names, y, parse).1 == Pass
    ensures StatsOver(StatsOver(s, names, y, parse).0, names, x, parse).1 == Pass
    ensures StatsOver(StatsOver(s, names, x, parse).0, names, y, parse).0
         == StatsOver(StatsOver(s, names, y, parse).0, names, x, parse).0
  {
    var sx, sy := StatsOver(s, names, x, parse).0, StatsOver(s, names, y, parse).0;
    StatsPassAnywhere(s, sx, names, y, parse);
    StatsPassAnywhere(s, sy, names, x, parse);
    StatsGrown(s, names, x, parse);
    StatsGrown(s, names, y, parse);
    StatsGrown(sx, names, y, parse);
    StatsGrown(sy, names, x, parse);
    GrownCommute(s, sx, sy, StatsOver(sx, names, y, parse).0, StatsOver(sy, names, x, parse).0, names, x, y, parse);
  }

  lemma GrownCommute(s: map<string, real>, sx: map<string, real>, sy: map<string, real>, sxy: map<string, real>, syx: map<string, real>,
                     names: seq<string>, x: Row, y: Row, parse: FloatParser)
    requires Grown(s, sx, names, x, parse) && Grown(s, sy, names, y, parse)
    requires Grown(sx, sxy, names, y, parse) && Grown(sy, syx, names, x, parse)
    ensures sxy == syx
  {
    forall k
      ensures (k in sxy <==> k in syx) && (k in sxy ==> sxy[k] == syx[k])
    {
    }
  }

  /** Two rows for the same unit and team. */
  predicate SameSlot(x: Row, y: Row) {
    TeamOf(x).Some? && UnitOf(x).Some? && TeamOf(x) == TeamOf(y) && UnitOf(x) == UnitOf(y)
  }

  /** After a finished `add_row`, a second row clashes exactly when it
      clashed before or is for the same unit and team as the first. */
  lemma ClashAfter(t: Totals, x: Row, y: Row, parse: FloatParser, names: seq<string>)
    requires t.Valid() && AddRowOver(t, x, parse, names).1.Pass?
    ensures Clashes(AddRowOver(t, x, parse, names).0, y) <==> Clashes(t, y) || SameSlot(x, y)
  {
    AddRowEffect(t, x, parse, names);
    var r := AddRowOver(t, x, parse, names).0;
    if TeamOf(y).Some? && UnitOf(y).Some? {
      var u := UnitOf(y).value;
      if u == UnitOf(x).value {
        assert r.Games(u) == t.Games(u)[TeamOf(x).value := GameCount(x, UnitColumn(u), parse).value];
      } else {
        assert r.Games(u) == t.Games(u);
      }
    }
  }

  /** Two rows of one player, in either order: both finish in one order
      exactly when both finish in the other, and then the player agrees. */
  lemma AddRowsCommute(t: Totals, x: Row, y: Row, parse: FloatParser, names: seq<string>)
    requires t.Valid() && Sorting.Distinct(names)
    ensures var a := AddRowOver(t, x, parse, names); var b := AddRowOver(t, y, parse, names);
      && (a.1.Pass? && AddRowOver(a.0, y, parse, names).1.Pass? <==> b.1.Pass? && AddRowOver(b.0, x, parse, names).1.Pass?)
      && (a.1.Pass? && AddRowOver(a.0, y, parse, names).1.Pass? ==>
            SameTotals(AddRowOver(a.0, y, parse, names).0, AddRowOver(b.0, x, parse, names).0))
  {
    var a := AddRowOver(t, x, parse, names);
    var b := AddRowOver(t, y, parse, names);
    AddRowPasses(t, x, parse, names);
    AddRowPasses(t, y, parse, names);
    if a.1.Pass? {
      AddRowPasses(a.0, y, parse, names);
      ClashAfter(t, x, y, parse, names);
    }
    if b.1.Pass? {
      AddRowPasses(b.0, x, parse, names);
      ClashAfter(t, y, x, parse, names);
    }
    if a.1.Pass? && AddRowOver(a.0, y, parse, names).1.Pass? {
      BothOrdersAgree(t, x, y, parse, names);
    }
  }

  /** AddRowsCommute when both orders finish. */
  lemma BothOrdersAgree(t: Totals, x: Row, y: Row, parse: FloatParser, names: seq<string>)
    requires t.Valid() && Sorting.Distinct(names)
    requires AddRowOver(t, x, parse, names).1.Pass? && AddRowOver(t, y, parse, names).1.Pass?
    requires AddRowOver(AddRowOver(t, x, parse, names).0, y, parse, names).1.Pass?
    requires AddRowOver(AddRowOver(t, y, parse, names).0, x, parse, names).1.Pass?
    ensures SameTotals(AddRowOver(AddRowOver(t, x, parse, names).0, y, parse, names).0,
                       AddRowOver(AddRowOver(t, y, parse, names).0, x, parse, names).0)
  {
    var a, b := AddRowOver(t, x, parse, names).0, AddRowOver(t, y, parse, names).0;
    var ab, ba := AddRowOver(a, y, parse, names).0, AddRowOver(b, x, parse, names).0;
    AddRowEffect(t, x, parse, names);
    AddRowEffect(t, y, parse, names);
    AddRowEffect(a, y, parse, names);
    AddRowEffect(b, x, parse, names);
    ClashAfter(t, x, y, parse, names);
    AgreeFromCredits(t, a, b, ab, ba, x, y, parse, names);
  }

  /** BothOrdersAgree from what each of the four steps credited. */
  lemma AgreeFromCredits(t: Totals, a: Totals, b: Totals, ab: Totals, ba: Totals, x: Row, y: Row, parse: FloatParser, names: seq<string>)
    requires Sorting.Distinct(names) && !SameSlot(x, y)
    requires Credited(t, x, parse, names, a) && Credited(t, y, parse, names, b)
    requires Credited(a, y, parse, names, ab) && Credited(b, x, parse, names, ba)
    ensures SameTotals(ab, ba)
  {
    StatsOverPasses(t.stats, names, x, parse);
    StatsOverPasses(t.stats, names, y, parse);
    StatsCommute(t.stats, names, x, y, parse);
    WeightsAgree(t.positions, a.positions, b.positions, ab.positions, ba.positions,
      x["position"], CountSum(x, parse), y["position"], CountSum(y, parse));
    GamesCommute(t.Games(Offense), x, y, parse, Offense);
    GamesCommute(t.Games(Defense), x, y, parse, Defense);
    GamesCommute(t.Games(Kicking), x, y, parse, Kicking);
  }

  lemma WeightsAgree(w: Dicts.Dict<real>, wp: Dicts.Dict<real>, wq: Dicts.Dict<real>, wpq: Dicts.Dict<real>, wqp: Dicts.Dict<real>,
                     p: string, dp: real, q: string, dq: real)
    requires wp.values == w.values[p := w.Get(p, 0.0) + dp]
    requires wq.values == w.values[q := w.Get(q, 0.0) + dq]
    requires wpq.values == wp.values[q := wp.Get(q, 0.0) + dq]
    requires wqp.values == wq.values[p := wq.Get(p, 0.0) + dp]
    ensures wpq.values == wqp.values
  {
  }

  /** One unit's game counts after two rows for different slots, in either order. */
  lemma GamesCommute(g: map<string, real>, x: Row, y: Row, parse: FloatParser, v: Unit)
    requires TeamOf(x).Some? && TeamOf(y).Some? && CountsParse(x, parse) && CountsParse(y, parse)
    requires !SameSlot(x, y)
    ensures Recorded(Recorded(g, x, parse, v), y, parse, v) == Recorded(Recorded(g, y, parse, v), x, parse, v)
  {
  }

  // ----- the league -----

  /** A row on two leagues that agree has the same outcome and leaves
      leagues that agree. */
  lemma LoadRowAgrees(a: Dicts.Dict<Totals>, b: Dicts.Dict<Totals>, row: Row, seasonType: string, parse: FloatParser, names: seq<string>)
    requires LeagueValid(a) && LeagueValid(b) && SameLeague(a, b)
    ensures LoadRow(a, row, seasonType, parse, names).1 == LoadRow(b, row, seasonType, parse, names).1
    ensures SameLeague(LoadRow(a, row, seasonType, parse, names).0, LoadRow(b, row, seasonType, parse, names).0)
  {
    if Matches(row, seasonType) && "player_id" in row && "player_display_name" in row {
      var pid, name := row["player_id"], row["player_display_name"];
      var ta, tb := PlayerFor(a, pid, name), PlayerFor(b, pid, name);
      assert SameTotals(ta, tb);
      AddRowAgrees(ta, tb, row, parse, names);
      PutAgrees(a, b, pid, AddRowOver(ta, row, parse, names).0, AddRowOver(tb, row, parse, names).0);
    }
  }

  /** Storing agreeing players under one ID keeps two leagues in agreement. */
  lemma PutAgrees(a: Dicts.Dict<Totals>, b: Dicts.Dict<Totals>, pid: string, x: Totals, y: Totals)
    requires a.Valid() && b.Valid() && SameLeague(a, b) && SameTotals(x, y)
    ensures SameLeague(a.Put(pid, x), b.Put(pid, y))
  {
  }

  lemma ThenAgrees(r: (Dicts.Dict<Totals>, Outcome), s: (Dicts.Dict<Totals>, Outcome), row: Row, seasonType: string, parse: FloatParser, names: seq<string>)
    requires LeagueValid(r.0) && LeagueValid(s.0) && SameLoad(r, s)
    ensures SameLoad(Then(r, row, seasonType, parse, names), Then(s, row, seasonType, parse, names))
  {
    if r.1.Pass? {
      LoadRowAgrees(r.0, s.0, row, seasonType, parse, names);
    }
  }

  lemma SameLoadSymmetric(r: (Dicts.Dict<Totals>, Outcome), s: (Dicts.Dict<Totals>, Outcome))
    requires SameLoad(r, s)
    ensures SameLoad(s, r)
  {
  }

  lemma SameLoadTransitive(r: (Dicts.Dict<Totals>, Outcome), s: (Dicts.Dict<Totals>, Outcome), u: (Dicts.Dict<Totals>, Outcome))
    requires SameLoad(r, s) && SameLoad(s, u)
    ensures SameLoad(r, u)
  {
    if r.1.Pass? {
      forall pid | pid in r.0.values && pid in u.0.values
        ensures SameTotals(r.0.values[pid], u.0.values[pid])
      {
        assert pid in s.0.values;
      }
    }
  }

  /** A row that credits a player. */
  predicate Credits(row: Row, seasonType: string) {
    Matches(row, seasonType) && "player_id" in row && "player_display_name" in row
  }

  /** Two rows after a load, in either order. */
  lemma ThenSwap(r: (Dicts.Dict<Totals>, Outcome), x: Row, y: Row, seasonType: string, parse: FloatParser, names: seq<string>)
    requires LeagueValid(r.0) && Sorting.Distinct(names)
    ensures var xy := Then(Then(r, x, seasonType, parse, names), y, seasonType, parse, names);
      var yx := Then(Then(r, y, seasonType, parse, names), x, seasonType, parse, names);
      SameLoad(xy, yx)
  {
    if r.1.Pass? {
      if !Credits(x, seasonType) || !Credits(y, seasonType) {
        assert SameLeague(r.0, r.0);
      } else if x["player_id"] != y["player_id"] {
        SwapOtherPlayers(r.0, x, y, seasonType, parse, names);
      } else {
        SwapSamePlayer(r.0, x, y, seasonType, parse, names);
      }
    }
  }

  /** A row that credits a player stores what `add_row` made of it. */
  lemma LoadCredited(league: Dicts.Dict<Totals>, row: Row, seasonType: string, parse: FloatParser, names: seq<string>)
    requires LeagueValid(league) && Credits(row, seasonType)
    ensures var pid := row["player_id"];
      var added := AddRowOver(PlayerFor(league, pid, row["player_display_name"]), row, parse, names);
      LoadRow(league, row, seasonType, parse, names) == (league.Put(pid, added.0), added.1)
  {
  }

  /** Rows of two different players, in either order. */
  lemma SwapOtherPlayers(league: Dicts.Dict<Totals>, x: Row, y: Row, seasonType: string, parse: FloatParser, names: seq<string>)
    requires LeagueValid(league)
    requires Credits(x, seasonType) && Credits(y, seasonType) && x["player_id"] != y["player_id"]
    ensures var r := (league, Pass);
      var xy := Then(Then(r, x, seasonType, parse, names), y, seasonType, parse, names);
      var yx := Then(Then(r, y, seasonType, parse, names), x, seasonType, parse, names);
      SameLoad(xy, yx)
  {
    var px, py := x["player_id"], y["player_id"];
    var tx, ty := PlayerFor(league, px, x["player_display_name"]), PlayerFor(league, py, y["player_display_name"]);
    var ax, ay := AddRowOver(tx, x, parse, names), AddRowOver(ty, y, parse, names);
    var lx, ly := league.Put(px, ax.0), league.Put(py, ay.0);
    LoadCredited(league, x, seasonType, parse, names);
    LoadCredited(league, y, seasonType, parse, names);
    assert PlayerFor(lx, py, y["player_display_name"]) == ty;
    assert PlayerFor(ly, px, x["player_display_name"]) == tx;
    LoadCredited(lx, y, seasonType, parse, names);
    LoadCredited(ly, x, seasonType, parse, names);
    if ax.1.Pass? && ay.1.Pass? {
      OtherKeysCommute(league.values, px, ax.0, py, ay.0);
      SameValuesAgree(lx.Put(py, ay.0), ly.Put(px, ax.0));
    }
  }

  lemma SameValuesAgree(a: Dicts.Dict<Totals>, b: Dicts.Dict<Totals>)
    requires a.values == b.values
    ensures SameLeague(a, b)
  {
  }

  lemma OtherKeysCommute(m: map<string, Totals>, p: string, a: Totals, q: string, b: Totals)
    requires p != q
    ensures m[p := a][q := b] == m[q := b][p := a]
  {
  }

  /** Two rows of the same player, in either order. */
  lemma SwapSamePlayer(league: Dicts.Dict<Totals>, x: Row, y: Row, seasonType: string, parse: FloatParser, names: seq<string>)
    requires LeagueValid(league) && Sorting.Distinct(names)
    requires Credits(x, seasonType) && Credits(y, seasonType) && x["player_id"] == y["player_id"]
    ensures var r := (league, Pass);
      var xy := Then(Then(r, x, seasonType, parse, names), y, seasonType, parse, names);
      var yx := Then(Then(r, y, seasonType, parse, names), x, seasonType, parse, names);
      SameLoad(xy, yx)
  {
    var pid := x["player_id"];
    var tx, ty := PlayerFor(league, pid, x["player_display_name"]), PlayerFor(league, pid, y["player_display_name"]);
    TwoRowsOnePlayer(league, x, y, seasonType, parse, names);
    TwoRowsOnePlayer(league, y, x, seasonType, parse, names);
    SameSlotAfterBoth(league, tx, ty, x, y, parse, names);
    var ax, ay := AddRowOver(tx, x, parse, names), AddRowOver(ty, y, parse, names);
    var axy, ayx := AddRowOver(ax.0, y, parse, names), AddRowOver(ay.0, x, parse, names);
    if ax.1.Pass? && axy.1.Pass? {
      var xy := Then(Then((league, Pass), x, seasonType, parse, names), y, seasonType, parse, names);
      var yx := Then(Then((league, Pass), y, seasonType, parse, names), x, seasonType, parse, names);
      ReplacedAgrees(xy.0, yx.0, league, pid, axy.0, ayx.0);
    }
  }

  /** Two rows of one player after a load that finished: the second row goes
      to what the first made of the player. */
  lemma TwoRowsOnePlayer(league: Dicts.Dict<Totals>, x: Row, y: Row, seasonType: string, parse: FloatParser, names: seq<string>)
    requires LeagueValid(league)
    requires Credits(x, seasonType) && Credits(y, seasonType) && x["player_id"] == y["player_id"]
    ensures var pid := x["player_id"];
      var ax := AddRowOver(PlayerFor(league, pid, x["player_display_name"]), x, parse, names);
      var axy := AddRowOver(ax.0, y, parse, names);
      var xy := Then(Then((league, Pass), x, seasonType, parse, names), y, seasonType, parse, names);
      && xy.1 == (if ax.1.Fail? then ax.1 else axy.1)
      && (ax.1.Pass? ==> Replaced(xy.0, league, pid, axy.0))
  {
    var pid := x["player_id"];
    var ax := AddRowOver(PlayerFor(league, pid, x["player_display_name"]), x, parse, names);
    var lx := league.Put(pid, ax.0);
    LoadCredited(league, x, seasonType, parse, names);
    assert PlayerFor(lx, pid, y["player_display_name"]) == ax.0;
    LoadCredited(lx, y, seasonType, parse, names);
  }

  /** The player side of SwapSamePlayer: the two players a row's name may
      start from agree, and so do both orders. */
  lemma SameSlotAfterBoth(league: Dicts.Dict<Totals>, tx: Totals, ty: Totals, x: Row, y: Row, parse: FloatParser, names: seq<string>)
    requires tx.Valid() && ty.Valid() && SameTotals(tx, ty) && Sorting.Distinct(names)
    ensures var ax, ay := AddRowOver(tx, x, parse, names), AddRowOver(ty, y, parse, names);
      var axy, ayx := AddRowOver(ax.0, y, parse, names), AddRowOver(ay.0, x, parse, names);
      && (ax.1.Pass? && axy.1.Pass? <==> ay.1.Pass? && ayx.1.Pass?)
      && (ax.1.Pass? && axy.1.Pass? ==> SameTotals(axy.0, ayx.0))
  {
    AddRowsCommute(tx, x, y, parse, names);
    var ty1 := AddRowOver(tx, y, parse, names);
    AddRowAgrees(tx, ty, y, parse, names);
    AddRowAgrees(ty1.0, AddRowOver(ty, y, parse, names).0, x, parse, names);
  }

  /** `after` is `before` with `t` stored under `pid`. */
  ghost predicate Replaced(after: Dicts.Dict<Totals>, before: Dicts.Dict<Totals>, pid: string, t: Totals) {
    && pid in after.values && after.values[pid] == t
    && forall q :: q != pid ==> (q in after.values <==> q in before.values) && (q in before.values ==> after.values[q] == before.values[q])
  }

  /** Leagues that differ only in a player who agrees in both agree. */
  lemma ReplacedAgrees(a: Dicts.Dict<Totals>, b: Dicts.Dict<Totals>, league: Dicts.Dict<Totals>, pid: string, ta: Totals, tb: Totals)
    requires Replaced(a, league, pid, ta) && Replaced(b, league, pid, tb) && SameTotals(ta, tb)
    ensures SameLeague(a, b)
  {
  }

  // ----- whole files -----

  lemma LoadRowsSnoc(league: Dicts.Dict<Totals>, rows: seq<Row>, row: Row, seasonType: string, parse: FloatParser, names: seq<string>)
    requires LeagueValid(league)
    ensures LoadRows(league, rows + [row], seasonType, parse, names)
         == Then(LoadRows(league, rows, seasonType, parse, names), row, seasonType, parse, names)
  {
    assert (rows + [row])[..|rows|] == rows;
  }

  /** Moving a row to the end of the rows does not change the load. */
  lemma {:induction false} MoveToEnd(league: Dicts.Dict<Totals>, p: seq<Row>, x: Row, q: seq<Row>, seasonType: string, parse: FloatParser, names: seq<string>)
    requires LeagueValid(league) && Sorting.Distinct(names)
    ensures SameLoad(LoadRows(league, p + [x] + q, seasonType, parse, names), LoadRows(league, p + q + [x], seasonType, parse, names))
    decreases |q|
  {
    if q == [] {
      assert p + [x] + q == p + q + [x];
      var r := LoadRows(league, p + q + [x], seasonType, parse, names);
      assert SameLeague(r.0, r.0);
    } else {
      var q', y := q[..|q| - 1], q[|q| - 1];
      assert q == q' + [y];
      assert p + [x] + q == (p + [x] + q') + [y];
      assert p + q + [x] == (p + q') + [y] + [x];
      assert p + q' + [x] == (p + q') + [x];
      var m := LoadRows(league, p + q', seasonType, parse, names);
      var before := LoadRows(league, p + [x] + q', seasonType, parse, names);
      MoveToEnd(league, p, x, q', seasonType, parse, names);
      LoadRowsSnoc(league, p + [x] + q', y, seasonType, parse, names);
      LoadRowsSnoc(league, p + q', x, seasonType, parse, names);
      LoadRowsSnoc(league, p + q', y, seasonType, parse, names);
      LoadRowsSnoc(league, p + q' + [y], x, seasonType, parse, names);
      var mx := Then(m, x, seasonType, parse, names);
      ThenAgrees(before, mx, y, seasonType, parse, names);
      ThenSwap(m, x, y, seasonType, parse, names);
      SameLoadTransitive(Then(before, y, seasonType, parse, names), Then(mx, y, seasonType, parse, names),
        Then(Then(m, y, seasonType, parse, names), x, seasonType, parse, names));
    }
  }

  /** Rows in any order: a load raises in one order exactly when it raises in
      the other, and otherwise leaves the same players with the same totals. */
  lemma {:induction false} AnyRowOrder(league: Dicts.Dict<Totals>, rows: seq<Row>, shuffled: seq<Row>, seasonType: string, parse: FloatParser, names: seq<string>)
    requires LeagueValid(league) && Sorting.Distinct(names)
    requires multiset(rows) == multiset(shuffled)
    ensures SameLoad(LoadRows(league, rows, seasonType, parse, names), LoadRows(league, shuffled, seasonType, parse, names))
    decreases |rows|
  {
    if rows == [] {
      assert |shuffled| == |multiset(shuffled)| == 0;
      assert SameLeague(league, league);
    } else {
      var init, x := rows[..|rows| - 1], rows[|rows| - 1];
      var p, q := FindLast(rows, shuffled);
      assert rows == init + [x];
      AnyRowOrder(league, init, p + q, seasonType, parse, names);
      LoadRowsSnoc(league, init, x, seasonType, parse, names);
      LoadRowsSnoc(league, p + q, x, seasonType, parse, names);
      ThenAgrees(LoadRows(league, init, seasonType, parse, names), LoadRows(league, p + q, seasonType, parse, names), x, seasonType, parse, names);
      MoveToEnd(league, p, x, q, seasonType, parse, names);
      SameLoadSymmetric(LoadRows(league, shuffled, seasonType, parse, names), LoadRows(league, p + q + [x], seasonType, parse, names));
      SameLoadTransitive(LoadRows(league, rows, seasonType, parse, names), LoadRows(league, p + q + [x], seasonType, parse, names),
        LoadRows(league, shuffled, seasonType, parse, names));
    }
  }

  /** Where the last of `rows` sits in a reordering of them, and what is left
      around it. */
  lemma FindLast<T>(rows: seq<T>, shuffled: seq<T>) returns (p: seq<T>, q: seq<T>)
    requires rows != [] && multiset(rows) == multiset(shuffled)
    ensures shuffled == p + [rows[|rows| - 1]] + q
    ensures multiset(rows[..|rows| - 1]) == multiset(p + q)
  {
    var init, x := rows[..|rows| - 1], rows[|rows| - 1];
    assert rows == init + [x];
    assert x in multiset(shuffled);
    var i :| 0 <= i < |shuffled| && shuffled[i] == x;
    p, q := shuffled[..i], shuffled[i + 1..];
    assert shuffled == p + [x] + q;
    calc {
      multiset(p + q);
      multiset(p) + multiset(q);
      multiset(p + [x] + q) - multiset{x};
      multiset(rows) - multiset{x};
      multiset(init + [x]) - multiset{x};
      multiset(init);
    }
  }

  /** Loading two lists of rows one after the other is loading them joined. */
  lemma {:induction false} LoadRowsAppend(league: Dicts.Dict<Totals>, a: seq<Row>, b: seq<Row>, seasonType: string, parse: FloatParser, names: seq<string>)
    requires LeagueValid(league)
    ensures var ra := LoadRows(league, a, seasonType, parse, names);
      LoadRows(league, a + b, seasonType, parse, names) == if ra.1.Fail? then ra else LoadRows(ra.0, b, seasonType, parse, names)
    decreases |b|
  {
    if b == [] {
      assert a + b == a;
    } else {
      var init, last := b[..|b| - 1], b[|b| - 1];
      assert b == init + [last];
      assert a + b == (a + init) + [last];
      LoadRowsAppend(league, a, init, seasonType, parse, names);
      LoadRowsSnoc(league, a + init, last, seasonType, parse, names);
      var ra := LoadRows(league, a, seasonType, parse, names);
      if ra.1.Pass? {
        LoadRowsSnoc(ra.0, init, last, seasonType, parse, names);
      }
    }
  }

  /** `SeasonStats` loads the three files as one list of rows, offense first. */
  lemma LoadSeasonJoined(files: SeasonFiles, seasonType: string, parse: FloatParser, names: seq<string>)
    ensures LoadSeason(files, seasonType, parse, names)
         == LoadRows(Dicts.Empty(), files.offense + files.defense + files.kicking, seasonType, parse, names)
  {
    LoadRowsAppend(Dicts.Empty(), files.offense, files.defense, seasonType, parse, names);
    LoadRowsAppend(Dicts.Empty(), files.offense + files.defense, files.kicking, seasonType, parse, names);
  }

  /** The same rows, however they are spread over the three files and in
      whatever order: the season raises for one exactly when it raises for
      the other, and otherwise holds the same players with the same totals. */
  lemma SeasonRowsInAnyOrder(files: SeasonFiles, other: SeasonFiles, seasonType: string, parse: FloatParser, names: seq<string>)
    requires Sorting.Distinct(names)
    requires multiset(files.offense + files.defense + files.kicking) == multiset(other.offense + other.defense + other.kicking)
    ensures SameLoad(LoadSeason(files, seasonType, parse, names), LoadSeason(other, seasonType, parse, names))
  {
    LoadSeasonJoined(files, seasonType, parse, names);
    LoadSeasonJoined(other, seasonType, parse, names);
    AnyRowOrder(Dicts.Empty(), files.offense + files.defense + files.kicking, other.offense + other.defense + other.kicking,
      seasonType, parse, names);
  }

  /** `other` holds the three files of `files` in one of the six orders. */
  predicate Reordered(files: SeasonFiles, other: SeasonFiles) {
    var (o, d, k) := (files.offense, files.defense, files.kicking);
    [other.offense, other.defense, other.kicking] in {[o, d, k], [o, k, d], [d, o, k], [d, k, o], [k, o, d], [k, d, o]}
  }

  /** Loading the offense, defense and kicking files in any order gives the
      same season, with the catalogue's stats. */
  lemma FilesInAnyOrder(files: SeasonFiles, other: SeasonFiles, seasonType: string, parse: FloatParser)
    requires Reordered(files, other)
    ensures SameLoad(LoadSeason(files, seasonType, parse, Catalog.SEASON_STAT_FEATURES),
                     LoadSeason(other, seasonType, parse, Catalog.SEASON_STAT_FEATURES))
  {
    Catalog.SeasonStatFeaturesDistinct();
    var (o, d, k) := (files.offense, files.defense, files.kicking);
    assert multiset(o + d + k) == multiset(other.offense + other.defense + other.kicking);
    SeasonRowsInAnyOrder(files, other, seasonType, parse, Catalog.SEASON_STAT_FEATURES);
  }
}
