/** `SeasonStats` of seasonstats.py: every player's `PlayerSeason` for one
    season, keyed by player ID, built from the offense, defense and kicking
    season files in that order.

    Reading a file becomes a sequence of rows. The league's abstract value is
    an insertion-ordered dictionary from player ID to `Totals`; `LoadRows`
    specifies what `_add_file` makes of it, and the class is proved to follow.
    The specification functions take the stat columns `add_row` totals as a
    parameter `names`; the program always passes SEASON_STAT_FEATURES, and the
    lemmas hold whatever the catalogue. */
module Seasons {
  import opened Results
  import opened Common
  import Dicts
  import opened PlayerSeasons
  import Sorting

  /** The three season files of a season, as the rows read from each. */
  datatype SeasonFiles = SeasonFiles(offense: seq<Row>, defense: seq<Row>, kicking: seq<Row>)

  /** Every player is stored under its own ID, with valid totals. */
  ghost predicate LeagueValid(league: Dicts.Dict<Totals>) {
    && league.Valid()
    && forall pid :: pid in league.values ==> league.values[pid].Valid() && league.values[pid].pid == pid
  }

  /** `row.get("season_type") == season_type`: a row without the column is skipped. */
  predicate Matches(row: Row, seasonType: string): (b: bool)
    ensures "season_type" !in row ==> !b
  {
    "season_type" in row && row["season_type"] == seasonType
  }

  /** The player a matching row is credited to: the one already stored under
      its ID, else a new one named by the row. */
  function PlayerFor(league: Dicts.Dict<Totals>, pid: string, name: string): (t: Totals)
    ensures pid in league.values ==> t == league.values[pid]
    ensures LeagueValid(league) ==> t.Valid() && t.pid == pid
    ensures pid !in league.values ==> t.name == name && t.stats == map[] && t.positions.keys == []
  {
    if pid in league.values then league.values[pid] else NewTotals(pid, name)
  }

  /** One pass of the loop of `_add_file`. A missing ID or name raises; a new
      player is stored before its first `add_row`, so it stays even when that
      raises, and so do the changes `add_row` made before raising. */
  function LoadRow(league: Dicts.Dict<Totals>, row: Row, seasonType: string, parse: FloatParser, names: seq<string>): (r: (Dicts.Dict<Totals>, Outcome))
    requires LeagueValid(league)
    ensures LeagueValid(r.0)
  {
    if !Matches(row, seasonType) then (league, Pass)
    else if "player_id" !in row then (league, Fail(KeyMissing("player_id")))
    else if "player_display_name" !in row then (league, Fail(KeyMissing("player_display_name")))
    else
      var pid := row["player_id"];
      var added := AddRowOver(PlayerFor(league, pid, row["player_display_name"]), row, parse, names);
      (league.Put(pid, added.0), added.1)
  }

  /** `_add_file` over `rows`: the rows in order, stopping at the first raise. */
  function LoadRows(league: Dicts.Dict<Totals>, rows: seq<Row>, seasonType: string, parse: FloatParser, names: seq<string>): (r: (Dicts.Dict<Totals>, Outcome))
    requires LeagueValid(league)
    ensures LeagueValid(r.0)
    decreases |rows|
  {
    if rows == [] then (league, Pass)
    else
      var before := LoadRows(league, rows[..|rows| - 1], seasonType, parse, names);
      if before.1.Fail? then before
      else LoadRow(before.0, rows[|rows| - 1], seasonType, parse, names)
  }

  /** `SeasonStats(season, season_type)`: the offense file, then the defense
      file, then the kicking file, into an empty league. */
  function LoadSeason(files: SeasonFiles, seasonType: string, parse: FloatParser, names: seq<string>): (r: (Dicts.Dict<Totals>, Outcome))
    ensures LeagueValid(r.0)
  {
    var offense := LoadRows(Dicts.Empty(), files.offense, seasonType, parse, names);
    if offense.1.Fail? then offense
    else
      var defense := LoadRows(offense.0, files.defense, seasonType, parse, names);
      if defense.1.Fail? then defense
      else LoadRows(defense.0, files.kicking, seasonType, parse, names)
  }

  // ----- what loading promises -----

  /** The IDs of the matching rows, in file order. */
  function MatchingIds(rows: seq<Row>, seasonType: string): (ids: seq<string>)
    ensures |ids| <= |rows|
    decreases |rows|
  {
    if rows == [] then []
    else
      var last := rows[|rows| - 1];
      MatchingIds(rows[..|rows| - 1], seasonType)
        + (if Matches(last, seasonType) && "player_id" in last then [last["player_id"]] else [])
  }

  /** `keys` followed by the members of `ids` not already listed, each once,
      in the order of their first occurrence. */
  function AppendNew(keys: seq<string>, ids: seq<string>): seq<string>
    decreases |ids|
  {
    if ids == [] then keys
    else
      var k := AppendNew(keys, ids[..|ids| - 1]);
      var last := ids[|ids| - 1];
      if last in k then k else k + [last]
  }

  lemma MatchingIdsStep(rows: seq<Row>, seasonType: string, i: nat)
    requires i < |rows|
    ensures MatchingIds(rows[..i + 1], seasonType) == MatchingIds(rows[..i], seasonType)
      + (if Matches(rows[i], seasonType) && "player_id" in rows[i] then [rows[i]["player_id"]] else [])
  {
    assert rows[..i + 1][..i] == rows[..i];
  }

  /** A row that does not match changes nothing; one that does stores its
      player, listed last if new, and leaves every other player as it was. */
  lemma LoadRowStoresPlayer(league: Dicts.Dict<Totals>, row: Row, seasonType: string, parse: FloatParser, names: seq<string>)
    requires LeagueValid(league)
    ensures var r := LoadRow(league, row, seasonType, parse, names);
      && (!Matches(row, seasonType) ==> r.1 == Pass && r.0 == league)
      && (Matches(row, seasonType) && "player_id" in row && "player_display_name" in row ==>
            var pid := row["player_id"];
            && r.0.keys == (if pid in league.values then league.keys else league.keys + [pid])
            && pid in r.0.values
            && r.0.values[pid].name == PlayerFor(league, pid, row["player_display_name"]).name
            && (forall q :: q != pid ==> (q in r.0.values <==> q in league.values)))
      && (forall q :: q in league.values && !(Matches(row, seasonType) && "player_id" in row && row["player_id"] == q) ==>
            q in r.0.values && r.0.values[q] == league.values[q])
  {
  }

  /** The players a load lists, in `player_ids` order, are the ones already
      listed followed by the IDs of the matching rows, each the first time it
      appears; a load that raises has listed the players up to the raise. */
  lemma {:induction false} LoadedIdsInFirstSeenOrder(league: Dicts.Dict<Totals>, rows: seq<Row>, seasonType: string, parse: FloatParser, names: seq<string>)
    requires LeagueValid(league)
    requires LoadRows(league, rows, seasonType, parse, names).1.Pass?
    ensures LoadRows(league, rows, seasonType, parse, names).0.keys == AppendNew(league.keys, MatchingIds(rows, seasonType))
    decreases |rows|
  {
    if rows != [] {
      var n := |rows| - 1;
      var row := rows[n];
      var before := LoadRows(league, rows[..n], seasonType, parse, names);
      assert before.1.Pass?;
      LoadedIdsInFirstSeenOrder(league, rows[..n], seasonType, parse, names);
      var k := AppendNew(league.keys, MatchingIds(rows[..n], seasonType));
      assert before.0.keys == k;
      assert LoadRows(league, rows, seasonType, parse, names).0.keys == LoadRow(before.0, row, seasonType, parse, names).0.keys;
      LoadRowStoresPlayer(before.0, row, seasonType, parse, names);
      var ids := MatchingIds(rows[..n], seasonType);
      if Matches(row, seasonType) && "player_id" in row {
        var pid := row["player_id"];
        assert MatchingIds(rows, seasonType) == ids + [pid];
        assert (ids + [pid])[..|ids|] == ids;
        assert AppendNew(league.keys, ids + [pid]) == if pid in k then k else k + [pid];
        assert pid in before.0.values <==> pid in k;
      } else {
        assert MatchingIds(rows, seasonType) == ids;
      }
    }
  }

  /** The matching rows credited to `pid`, in file order. */
  function PlayerRows(rows: seq<Row>, seasonType: string, pid: string): (own: seq<Row>)
    ensures |own| <= |rows|
    decreases |rows|
  {
    if rows == [] then []
    else
      var last := rows[|rows| - 1];
      PlayerRows(rows[..|rows| - 1], seasonType, pid)
        + (if Matches(last, seasonType) && "player_id" in last && last["player_id"] == pid then [last] else [])
  }

  /** `add_row` applied to `rows` in order, stopping at the first raise. */
  function AddRows(t: Totals, rows: seq<Row>, parse: FloatParser, names: seq<string>): (r: (Totals, Outcome))
    requires t.Valid()
    ensures r.0.Valid() && r.0.pid == t.pid && r.0.name == t.name
    decreases |rows|
  {
    if rows == [] then (t, Pass)
    else
      var before := AddRows(t, rows[..|rows| - 1], parse, names);
      if before.1.Fail? then before
      else AddRowOver(before.0, rows[|rows| - 1], parse, names)
  }

  /** The display name on the first of a player's rows. */
  function FirstName(own: seq<Row>): string {
    if own != [] && "player_display_name" in own[0] then own[0]["player_display_name"] else ""
  }

  lemma PlayerRowsStep(rows: seq<Row>, seasonType: string, pid: string, i: nat)
    requires i < |rows|
    ensures PlayerRows(rows[..i + 1], seasonType, pid) == PlayerRows(rows[..i], seasonType, pid)
      + (if Matches(rows[i], seasonType) && "player_id" in rows[i] && rows[i]["player_id"] == pid then [rows[i]] else [])
  {
    assert rows[..i + 1][..i] == rows[..i];
  }

  /** A player with no row of its own in the files is not created by them. */
  lemma {:induction false} NoRowsNoPlayer(league: Dicts.Dict<Totals>, rows: seq<Row>, seasonType: string, parse: FloatParser, names: seq<string>, pid: string)
    requires LeagueValid(league) && pid !in league.values
    requires PlayerRows(rows, seasonType, pid) == []
    ensures pid !in LoadRows(league, rows, seasonType, parse, names).0.values
    decreases |rows|
  {
    if rows != [] {
      var n := |rows| - 1;
      PlayerRowsStep(rows, seasonType, pid, n);
      assert rows[..n + 1] == rows;
      NoRowsNoPlayer(league, rows[..n], seasonType, parse, names, pid);
      var before := LoadRows(league, rows[..n], seasonType, parse, names);
      LoadRowStoresPlayer(before.0, rows[n], seasonType, parse, names);
    }
  }

  /** `add_row` on one more row of a player's own. */
  lemma AddRowsSnoc(start: Totals, own: seq<Row>, row: Row, parse: FloatParser, names: seq<string>)
    requires start.Valid()
    ensures var prev := AddRows(start, own, parse, names);
      var next := AddRows(start, own + [row], parse, names);
      prev.1.Pass? ==> next.0 == AddRowOver(prev.0, row, parse, names).0 && next.1 == AddRowOver(prev.0, row, parse, names).1
  {
    assert (own + [row])[..|own|] == own;
  }

  /** A matching row with an ID and a name stores what `add_row` makes of the
      player it is credited to. */
  lemma LoadRowAddsToPlayer(b: Dicts.Dict<Totals>, row: Row, seasonType: string, parse: FloatParser, names: seq<string>)
    requires LeagueValid(b)
    requires Matches(row, seasonType) && "player_id" in row && "player_display_name" in row
    ensures var pid := row["player_id"];
      var added := AddRowOver(PlayerFor(b, pid, row["player_display_name"]), row, parse, names);
      var r := LoadRow(b, row, seasonType, parse, names);
      && pid in r.0.values && r.0.values[pid] == added.0 && r.1 == added.1
  {
  }

  /** Each player's totals are what `add_row` makes of that player's own
      matching rows, in file order, starting from the player as it was (or,
      for a new player, from nothing, under the name on its first row): rows
      of other players and of other season types do not touch it. */
  lemma {:induction false} PlayerGetsOwnRows(league: Dicts.Dict<Totals>, rows: seq<Row>, seasonType: string, parse: FloatParser, names: seq<string>, pid: string)
    requires LeagueValid(league) && LoadRows(league, rows, seasonType, parse, names).1.Pass?
    requires pid in league.values || PlayerRows(rows, seasonType, pid) != []
    ensures var r := LoadRows(league, rows, seasonType, parse, names).0;
      var own := PlayerRows(rows, seasonType, pid);
      && pid in r.values
      && AddRows(PlayerFor(league, pid, FirstName(own)), own, parse, names).1 == Pass
      && AddRows(PlayerFor(league, pid, FirstName(own)), own, parse, names).0 == r.values[pid]
    decreases |rows|, 1
  {
    if rows != [] {
      var row := rows[|rows| - 1];
      if Matches(row, seasonType) && "player_id" in row && row["player_id"] == pid {
        OwnLastRow(league, rows, seasonType, parse, names, pid);
      } else {
        OtherLastRow(league, rows, seasonType, parse, names, pid);
      }
    }
  }

  /** PlayerGetsOwnRows when the last row is the player's own. */
  lemma {:induction false} OwnLastRow(league: Dicts.Dict<Totals>, rows: seq<Row>, seasonType: string, parse: FloatParser, names: seq<string>, pid: string)
    requires LeagueValid(league) && LoadRows(league, rows, seasonType, parse, names).1.Pass?
    requires rows != [] && var row := rows[|rows| - 1];
      Matches(row, seasonType) && "player_id" in row && row["player_id"] == pid
    ensures var r := LoadRows(league, rows, seasonType, parse, names).0;
      var own := PlayerRows(rows, seasonType, pid);
      && pid in r.values
      && AddRows(PlayerFor(league, pid, FirstName(own)), own, parse, names).1 == Pass
      && AddRows(PlayerFor(league, pid, FirstName(own)), own, parse, names).0 == r.values[pid]
    decreases |rows|, 0
  {
    var n := |rows| - 1;
    var row := rows[n];
    var own' := PlayerRows(rows[..n], seasonType, pid);
    PlayerRowsStep(rows, seasonType, pid, n);
    assert rows[..n + 1] == rows;
    if pid in league.values || own' != [] {
      var before := LoadRows(league, rows[..n], seasonType, parse, names);
      var own := PlayerRows(rows, seasonType, pid);
      assert before.1.Pass?;
      assert own == own' + [row];
      assert "player_display_name" in row;
      PlayerGetsOwnRows(league, rows[..n], seasonType, parse, names, pid);
      var start := PlayerFor(league, pid, FirstName(own'));
      if pid !in league.values {
        assert |own'| > 0 && (own' + [row])[0] == own'[0];
      }
      assert PlayerFor(league, pid, FirstName(own)) == start;
      NextOwnRow(before.0, row, seasonType, parse, names, start, own');
    } else {
      FirstOwnRow(league, rows, seasonType, parse, names, pid);
    }
  }

  /** A later row of a player already stored: `add_row` on its totals so far. */
  lemma NextOwnRow(b: Dicts.Dict<Totals>, row: Row, seasonType: string, parse: FloatParser, names: seq<string>, start: Totals, own: seq<Row>)
    requires LeagueValid(b) && start.Valid()
    requires Matches(row, seasonType) && "player_id" in row && "player_display_name" in row
    requires row["player_id"] in b.values
    requires AddRows(start, own, parse, names).1 == Pass && AddRows(start, own, parse, names).0 == b.values[row["player_id"]]
    ensures var r := LoadRow(b, row, seasonType, parse, names);
      && row["player_id"] in r.0.values
      && AddRows(start, own + [row], parse, names).1 == r.1
      && AddRows(start, own + [row], parse, names).0 == r.0.values[row["player_id"]]
  {
    AddRowsSnoc(start, own, row, parse, names);
    LoadRowAddsToPlayer(b, row, seasonType, parse, names);
  }

  /** OwnLastRow when the last row is the first of a new player's. */
  lemma FirstOwnRow(league: Dicts.Dict<Totals>, rows: seq<Row>, seasonType: string, parse: FloatParser, names: seq<string>, pid: string)
    requires LeagueValid(league) && LoadRows(league, rows, seasonType, parse, names).1.Pass?
    requires rows != [] && var row := rows[|rows| - 1];
      Matches(row, seasonType) && "player_id" in row && row["player_id"] == pid
    requires pid !in league.values && PlayerRows(rows[..|rows| - 1], seasonType, pid) == []
    ensures var r := LoadRows(league, rows, seasonType, parse, names).0;
      var own := PlayerRows(rows, seasonType, pid);
      && pid in r.values
      && AddRows(PlayerFor(league, pid, FirstName(own)), own, parse, names).1 == Pass
      && AddRows(PlayerFor(league, pid, FirstName(own)), own, parse, names).0 == r.values[pid]
  {
    var n := |rows| - 1;
    var row := rows[n];
    var before := LoadRows(league, rows[..n], seasonType, parse, names);
    PlayerRowsStep(rows, seasonType, pid, n);
    assert rows[..n + 1] == rows;
    assert before.1.Pass?;
    assert PlayerRows(rows, seasonType, pid) == [row];
    assert "player_display_name" in row;
    NoRowsNoPlayer(league, rows[..n], seasonType, parse, names, pid);
    AddRowsSnoc(NewTotals(pid, row["player_display_name"]), [], row, parse, names);
    assert [] + [row] == [row];
    LoadRowAddsToPlayer(before.0, row, seasonType, parse, names);
  }

  /** PlayerGetsOwnRows when the last row is not the player's. */
  lemma {:induction false} OtherLastRow(league: Dicts.Dict<Totals>, rows: seq<Row>, seasonType: string, parse: FloatParser, names: seq<string>, pid: string)
    requires LeagueValid(league) && LoadRows(league, rows, seasonType, parse, names).1.Pass?
    requires pid in league.values || PlayerRows(rows, seasonType, pid) != []
    requires rows != [] && var row := rows[|rows| - 1];
      !(Matches(row, seasonType) && "player_id" in row && row["player_id"] == pid)
    ensures var r := LoadRows(league, rows, seasonType, parse, names).0;
      var own := PlayerRows(rows, seasonType, pid);
      && pid in r.values
      && AddRows(PlayerFor(league, pid, FirstName(own)), own, parse, names).1 == Pass
      && AddRows(PlayerFor(league, pid, FirstName(own)), own, parse, names).0 == r.values[pid]
    decreases |rows|, 0
  {
    var n := |rows| - 1;
    var before := LoadRows(league, rows[..n], seasonType, parse, names);
    PlayerRowsStep(rows, seasonType, pid, n);
    assert rows[..n + 1] == rows;
    assert before.1.Pass?;
    assert PlayerRows(rows, seasonType, pid) == PlayerRows(rows[..n], seasonType, pid);
    PlayerGetsOwnRows(league, rows[..n], seasonType, parse, names, pid);
    LoadRowStoresPlayer(before.0, rows[n], seasonType, parse, names);
  }

  // ----- the class -----

  /** `SeasonStats`: the players of one season by ID, in the order first seen.
      Each player's totals are held as a value (see `PlayerSeasons.Totals`). */
  class SeasonStats {
    var players: Dicts.Dict<Totals>

    ghost predicate Valid()
      reads this
    {
      LeagueValid(players)
    }

    constructor Empty()
      ensures Valid() && players.keys == [] && players.values == map[]
    {
      players := Dicts.Empty();
    }

    /** One pass of the loop of `_add_file`. */
    method LoadRowInPlace(row: Row, seasonType: string, parse: FloatParser) returns (outcome: Outcome)
      requires Valid()
      modifies this
      ensures Valid()
      ensures (players, outcome) == LoadRow(old(players), row, seasonType, parse, Catalog.SEASON_STAT_FEATURES)
    {
      outcome := LoadRowOver(Catalog.SEASON_STAT_FEATURES, row, seasonType, parse);
    }

    /** The loop body of `_add_file`, with the stat catalogue as `names`:
        rows of another season type are skipped, a new ID gets a fresh
        player under the row's name, and the row is added to the player. */
    method LoadRowOver(names: seq<string>, row: Row, seasonType: string, parse: FloatParser) returns (outcome: Outcome)
      requires Valid()
      modifies this
      ensures Valid()
      ensures (players, outcome) == LoadRow(old(players), row, seasonType, parse, names)
    {
      if !("season_type" in row && row["season_type"] == seasonType) {
        return Pass;
      }
      if "player_id" !in row {
        return Fail(KeyMissing("player_id"));
      }
      if "player_display_name" !in row {
        return Fail(KeyMissing("player_display_name"));
      }
      var pid := row["player_id"];
      var player: Totals;
      if pid in players.values {
        player := players.values[pid];
      } else {
        player := NewTotals(pid, row["player_display_name"]);
      }
      var added := AddRowOver(player, row, parse, names);
      players := players.Put(pid, added.0);
      outcome := added.1;
    }

    /** `_add_file`: the rows of one file in order, stopping at the first raise. */
    method AddFile(rows: seq<Row>, seasonType: string, parse: FloatParser) returns (outcome: Outcome)
      requires Valid()
      modifies this
      ensures Valid()
      ensures (players, outcome) == LoadRows(old(players), rows, seasonType, parse, Catalog.SEASON_STAT_FEATURES)
    {
      outcome := AddFileOver(Catalog.SEASON_STAT_FEATURES, rows, seasonType, parse);
    }

    /** The loop of `_add_file`, with the stat catalogue as `names`. */
    method AddFileOver(names: seq<string>, rows: seq<Row>, seasonType: string, parse: FloatParser) returns (outcome: Outcome)
      requires Valid()
      modifies this
      ensures Valid()
      ensures (players, outcome) == LoadRows(old(players), rows, seasonType, parse, names)
    {
      var i := 0;
      while i < |rows|
        invariant 0 <= i <= |rows|
        invariant Valid()
        invariant LoadRows(old(players), rows[..i], seasonType, parse, names) == (players, Pass)
      {
        assert rows[..i + 1][..i] == rows[..i];
        outcome := LoadRowOver(names, rows[i], seasonType, parse);
        if outcome.Fail? {
          LoadRowsStopsAtFailure(old(players), rows, i + 1, seasonType, parse, names);
          return;
        }
        i := i + 1;
      }
      assert rows[..|rows|] == rows;
      outcome := Pass;
    }

    /** `SeasonStats(season, season_type)`: a new league loaded from the
        offense, defense and kicking files in turn; a raise leaves no object. */
    static method Load(files: SeasonFiles, seasonType: string, parse: FloatParser) returns (r: Result<SeasonStats>)
      ensures var loaded := LoadSeason(files, seasonType, parse, Catalog.SEASON_STAT_FEATURES);
        && (r.Ok? <==> loaded.1.Pass?)
        && (r.Err? ==> loaded.1 == Fail(r.error))
        && (r.Ok? ==> fresh(r.value) && r.value.Valid() && r.value.players == loaded.0)
    {
      var stats := new SeasonStats.Empty();
      var outcome := stats.AddFile(files.offense, seasonType, parse);
      if outcome.Fail? {
        return Err(outcome.error);
      }
      outcome := stats.AddFile(files.defense, seasonType, parse);
      if outcome.Fail? {
        return Err(outcome.error);
      }
      outcome := stats.AddFile(files.kicking, seasonType, parse);
      if outcome.Fail? {
        return Err(outcome.error);
      }
      return Ok(stats);
    }

    /** `player_ids`: every player loaded, listed once each in the order first seen. */
    function PlayerIds(): (ids: seq<string>)
      reads this
      requires Valid()
      ensures Sorting.Distinct(ids)
      ensures forall pid :: pid in ids <==> pid in players.values
    {
      players.keys
    }

    /** `get_player_stats(player_id)`: the player's totals, or a raise for an
        unknown ID. */
    function GetPlayerStats(pid: string): (r: Result<Totals>)
      reads this
      requires Valid()
      ensures r.Ok? <==> pid in players.keys
      ensures r.Ok? ==> r.value == players.values[pid] && r.value.pid == pid && r.value.Valid()
      ensures r.Err? ==> r.error == NotFound(pid)
    {
      if pid in players.values then Ok(players.values[pid]) else Err(NotFound(pid))
    }
  }

  /** A raise part-way through a file ends `_add_file`: the rows after it
      change nothing. */
  lemma {:induction false} LoadRowsStopsAtFailure(league: Dicts.Dict<Totals>, rows: seq<Row>, k: nat, seasonType: string,
                                                  parse: FloatParser, names: seq<string>)
    requires LeagueValid(league) && k <= |rows|
    requires LoadRows(league, rows[..k], seasonType, parse, names).1.Fail?
    ensures LoadRows(league, rows, seasonType, parse, names) == LoadRows(league, rows[..k], seasonType, parse, names)
    decreases |rows| - k
  {
    if k < |rows| {
      assert rows[..|rows| - 1][..k] == rows[..k];
      LoadRowsStopsAtFailure(league, rows[..|rows| - 1], k, seasonType, parse, names);
    } else {
      assert rows[..k] == rows;
    }
  }
}
