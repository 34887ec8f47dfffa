/** Players as they appear on the Week 1 roster of a season.

    A roster row is accepted only if it has a player ID, is a Week 1 row and
    has a birth date; accepted rows become `WeekOnePlayer` records, and the
    league keeps the last record seen for each ID. The ages, which the
    program measures from the wall clock, come from a `Clock` parameter. */
module WeekOne {
  import opened Results
  import opened Common
  import Dicts

  /** Python's `int(text)`: the value, or None where it raises ValueError. */
  type IntParser = string -> Option<int>

  /** The wall clock's part in the ages: `ageOn(date)` is the years from a
      `%Y-%m-%d` birth date to now (None where `strptime` rejects the text),
      and `ageSince(year)` the years from 1 September of `year` to now (None
      where `datetime` rejects the year). */
  datatype Clock = Clock(ageOn: string -> Option<real>, ageSince: int -> Option<real>)

  const NUM_WEEK_ONE_FEATURES: nat := 8

  /** The names of the feature slots, in slot order. */
  const WEEK_ONE_FEATURES: seq<string> := [
    "active", "age", "height", "weight",
    "years_exp", "years_since_entry", "years_since_rookie", "draft_number"
  ]

  datatype WeekOnePlayer = WeekOnePlayer(
    pid: string,
    name: string,
    shortName: string,
    team: string,
    position: string,
    active: bool,
    age: real,
    height: real,
    weight: real,
    yearsExp: real,
    entryAge: real,
    rookieAge: real,
    draftNumber: real)

  /** The value a feature name stands for, read off the record's fields. */
  function FeatureNamed(p: WeekOnePlayer, feature: string): real {
    match feature
    case "active" => if p.active then 1.0 else 0.0
    case "age" => p.age
    case "height" => p.height
    case "weight" => p.weight
    case "years_exp" => p.yearsExp
    case "years_since_entry" => p.entryAge
    case "years_since_rookie" => p.rookieAge
    case "draft_number" => p.draftNumber
    case _ => 0.0
  }

  /** `features()`: one value per name of `WEEK_ONE_FEATURES`, in that order;
      slot 0 is the active flag as 1.0 or 0.0. */
  function Features(p: WeekOnePlayer): (v: seq<real>)
    ensures |v| == NUM_WEEK_ONE_FEATURES == |WEEK_ONE_FEATURES|
    ensures forall i :: 0 <= i < |v| ==> v[i] == FeatureNamed(p, WEEK_ONE_FEATURES[i])
    ensures (v[0] == 1.0 <==> p.active) && (v[0] == 0.0 <==> !p.active)
  {
    [if p.active then 1.0 else 0.0,
     p.age, p.height, p.weight,
     p.yearsExp, p.entryAge, p.rookieAge,
     p.draftNumber]
  }

  /** `int(row[column])` */
  function IntField(row: Row, column: string, parseInt: IntParser): (r: Result<int>)
    ensures r.Ok? <==> column in row && parseInt(row[column]).Some?
    ensures r.Ok? ==> r.value == parseInt(row[column]).value
  {
    if column !in row then Err(KeyMissing(column))
    else match parseInt(row[column])
      case Some(n) => Ok(n)
      case None => Err(MalformedNumber(row[column]))
  }

  /** `float(row[column])` */
  function FloatField(row: Row, column: string, parseFloat: FloatParser): (r: Result<real>)
    ensures r.Ok? <==> column in row && parseFloat(row[column]).Some?
    ensures r.Ok? ==> r.value == parseFloat(row[column]).value
  {
    if column !in row then Err(KeyMissing(column))
    else match parseFloat(row[column])
      case Some(x) => Ok(x)
      case None => Err(MalformedNumber(row[column]))
  }

  /** The years from 1 September of `int(row[column])` to now. */
  function YearsSince(row: Row, column: string, parseInt: IntParser, clock: Clock): (r: Result<real>)
    ensures r.Ok? ==> IntField(row, column, parseInt).Ok?
    ensures r.Ok? ==> clock.ageSince(IntField(row, column, parseInt).value) == Some(r.value)
  {
    var year :- IntField(row, column, parseInt);
    match clock.ageSince(year)
    case Some(years) => Ok(years)
    case None => Err(BadDate(row[column]))
  }

  /** `f'{first_name[0]}.{last_name}'`, raising on an empty first name. */
  function ShortName(row: Row): (r: Result<string>)
    ensures r.Ok? <==> "first_name" in row && |row["first_name"]| > 0 && "last_name" in row
    ensures r.Ok? ==> r.value == [row["first_name"][0]] + "." + row["last_name"]
  {
    var first :- Field(row, "first_name");
    if |first| == 0 then Err(IndexOutOfRange("first_name"))
    else
      var last :- Field(row, "last_name");
      Ok([first[0]] + "." + last)
  }

  /** The three checks of `from_row` that drop a row, in the program's order:
      true when the row is dropped. */
  function Dropped(row: Row, parseInt: IntParser): (r: Result<bool>)
    ensures r == Ok(false) <==>
      && "gsis_id" in row && row["gsis_id"] != ""
      && "week" in row && parseInt(row["week"]) == Some(1)
      && "birth_date" in row && row["birth_date"] != ""
    ensures r.Err? ==> r.error in {KeyMissing("gsis_id"), KeyMissing("birth_date")} + (if "week" in row then {KeyMissing("week"), MalformedNumber(row["week"])} else {KeyMissing("week")})
  {
    var pid :- Field(row, "gsis_id");
    if pid == "" then Ok(true)
    else
      var week :- IntField(row, "week", parseInt);
      if week != 1 then Ok(true)
      else
        var birth :- Field(row, "birth_date");
        Ok(birth == "")
  }

  /** `WeekOnePlayer.from_row(row)`: None for a dropped row, the record for an
      accepted one, and the first raise of the fields it reads otherwise.

      A row is dropped, without a raise, exactly when its ID is empty, or else
      its week parses to something other than 1, or else its birth date is
      empty. An accepted row's record has the row's own ID, is active exactly
      for status "ACT", has the short name built from the first initial, and
      has a draft number of 400 where that field is empty. */
  function FromRow(row: Row, parseInt: IntParser, parseFloat: FloatParser, clock: Clock): (r: Result<Option<WeekOnePlayer>>)
    ensures r == Ok(None) <==>
      && "gsis_id" in row
      && (|| row["gsis_id"] == ""
          || (&& "week" in row && parseInt(row["week"]).Some?
              && (|| parseInt(row["week"]).value != 1
                  || ("birth_date" in row && row["birth_date"] == ""))))
    ensures r.Ok? && r.value.Some? ==>
      var p := r.value.value;
      && "gsis_id" in row && p.pid == row["gsis_id"] && p.pid != ""
      && "week" in row && parseInt(row["week"]) == Some(1)
      && "birth_date" in row && row["birth_date"] != ""
      && "status" in row && (p.active <==> row["status"] == "ACT")
      && "first_name" in row && "last_name" in row && |row["first_name"]| > 0
      && p.shortName == [row["first_name"][0]] + "." + row["last_name"]
      && "draft_number" in row
      && (row["draft_number"] == "" ==> p.draftNumber == 400.0)
      && (row["draft_number"] != "" ==> Some(p.draftNumber) == parseFloat(row["draft_number"]))
    ensures r.Ok? && r.value.Some? ==>
      var p := r.value.value;
      && "full_name" in row && p.name == row["full_name"]
      && "team" in row && p.team == row["team"]
      && "position" in row && p.position == row["position"]
      && clock.ageOn(row["birth_date"]) == Some(p.age)
      && "height" in row && parseFloat(row["height"]) == Some(p.height)
      && "weight" in row && parseFloat(row["weight"]) == Some(p.weight)
      && "years_exp" in row && parseFloat(row["years_exp"]) == Some(p.yearsExp)
      && "entry_year" in row && parseInt(row["entry_year"]).Some?
      && clock.ageSince(parseInt(row["entry_year"]).value) == Some(p.entryAge)
      && "rookie_year" in row && parseInt(row["rookie_year"]).Some?
      && clock.ageSince(parseInt(row["rookie_year"]).value) == Some(p.rookieAge)
    ensures r.Ok? && r.value.Some? ==> Build(row, parseInt, parseFloat, clock) == Ok(r.value.value)
  {
    var dropped :- Dropped(row, parseInt);
    if dropped then Ok(None)
    else
      var player :- Build(row, parseInt, parseFloat, clock);
      Ok(Some(player))
  }

  /** The record built from a row that passed the checks, its fields read in
      the order the program reads them. */
  function Build(row: Row, parseInt: IntParser, parseFloat: FloatParser, clock: Clock): (r: Result<WeekOnePlayer>)
    requires "gsis_id" in row && "birth_date" in row
    ensures r.Ok? ==>
      var p := r.value;
      && p.pid == row["gsis_id"]
      && "full_name" in row && p.name == row["full_name"]
      && "team" in row && p.team == row["team"]
      && "position" in row && p.position == row["position"]
      && "status" in row && (p.active <==> row["status"] == "ACT")
      && clock.ageOn(row["birth_date"]) == Some(p.age)
      && "height" in row && parseFloat(row["height"]) == Some(p.height)
      && "weight" in row && parseFloat(row["weight"]) == Some(p.weight)
      && "years_exp" in row && parseFloat(row["years_exp"]) == Some(p.yearsExp)
    ensures r.Ok? ==> "first_name" in row && "last_name" in row && |row["first_name"]| > 0
  {
    var age :- match clock.ageOn(row["birth_date"])
      case Some(years) => Ok(years)
      case None => Err(BadDate(row["birth_date"]));
    var entryAge :- YearsSince(row, "entry_year", parseInt, clock);
    var rookieAge :- YearsSince(row, "rookie_year", parseInt, clock);
    var name :- Field(row, "full_name");
    var shortName :- ShortName(row);
    var team :- Field(row, "team");
    var position :- Field(row, "position");
    var status :- Field(row, "status");
    var height :- FloatField(row, "height", parseFloat);
    var weight :- FloatField(row, "weight", parseFloat);
    var yearsExp :- FloatField(row, "years_exp", parseFloat);
    var draftText :- Field(row, "draft_number");
    var draftNumber :- EmptyFloat(parseFloat, draftText, 400.0);
    Ok(WeekOnePlayer(row["gsis_id"], name, shortName, team, position, status == "ACT",
                     age, height, weight, yearsExp, entryAge, rookieAge, draftNumber))
  }

  // ----- the league -----

  /** The records of the accepted rows, in file order; rows that raise are
      passed over. */
  function Accepted(rows: seq<Row>, parseInt: IntParser, parseFloat: FloatParser, clock: Clock): (r: seq<WeekOnePlayer>)
    ensures |r| <= |rows|
    ensures forall i :: 0 <= i < |r| ==> r[i].pid != ""
    decreases |rows|
  {
    if rows == [] then []
    else
      var last := FromRow(rows[|rows| - 1], parseInt, parseFloat, clock);
      Accepted(rows[..|rows| - 1], parseInt, parseFloat, clock)
        + (if last.Ok? && last.value.Some? then [last.value.value] else [])
  }

  /** The last record with ID `pid` in `ps`, if any. */
  function LastWith(ps: seq<WeekOnePlayer>, pid: string): Option<WeekOnePlayer>
    decreases |ps|
  {
    if ps == [] then None
    else if ps[|ps| - 1].pid == pid then Some(ps[|ps| - 1])
    else LastWith(ps[..|ps| - 1], pid)
  }

  /** Every record is stored under its own ID. */
  ghost predicate RosterValid(d: Dicts.Dict<WeekOnePlayer>) {
    && d.Valid()
    && forall pid :: pid in d.values ==> d.values[pid].pid == pid
  }

  /** The league built by `WeekOneLeague(roster)` from the file's rows: each
      accepted record stored under its ID, stopping at the first raise. */
  function Roster(rows: seq<Row>, parseInt: IntParser, parseFloat: FloatParser, clock: Clock): (r: Result<Dicts.Dict<WeekOnePlayer>>)
    ensures r.Ok? ==> RosterValid(r.value)
    decreases |rows|
  {
    if rows == [] then Ok(Dicts.Empty())
    else
      var before :- Roster(rows[..|rows| - 1], parseInt, parseFloat, clock);
      var player :- FromRow(rows[|rows| - 1], parseInt, parseFloat, clock);
      if player.None? then Ok(before)
      else Ok(before.Put(player.value.pid, player.value))
  }

  /** The league holds exactly the IDs of the accepted rows, and under each
      the record of the last row accepted with that ID. */
  lemma {:induction false} LastAcceptedRowWins(rows: seq<Row>, parseInt: IntParser, parseFloat: FloatParser, clock: Clock)
    requires Roster(rows, parseInt, parseFloat, clock).Ok?
    ensures var league := Roster(rows, parseInt, parseFloat, clock).value;
      var accepted := Accepted(rows, parseInt, parseFloat, clock);
      forall pid :: && (pid in league.values <==> LastWith(accepted, pid).Some?)
                    && (pid in league.values ==> league.values[pid] == LastWith(accepted, pid).value)
    decreases |rows|
  {
    if rows != [] {
      var prefix := rows[..|rows| - 1];
      LastAcceptedRowWins(prefix, parseInt, parseFloat, clock);
      var last := FromRow(rows[|rows| - 1], parseInt, parseFloat, clock);
      var earlier := Accepted(prefix, parseInt, parseFloat, clock);
      if last.value.Some? {
        var p := last.value.value;
        assert Accepted(rows, parseInt, parseFloat, clock) == earlier + [p];
        forall pid | true
          ensures LastWith(earlier + [p], pid) == if pid == p.pid then Some(p) else LastWith(earlier, pid)
        {
          assert (earlier + [p])[..|earlier + [p]| - 1] == earlier;
        }
      } else {
        assert Accepted(rows, parseInt, parseFloat, clock) == earlier;
      }
    }
  }

  /** The load raises exactly when some row raises. */
  lemma RosterFailsOnRaise(rows: seq<Row>, parseInt: IntParser, parseFloat: FloatParser, clock: Clock)
    ensures Roster(rows, parseInt, parseFloat, clock).Err? <==>
      exists i :: 0 <= i < |rows| && FromRow(rows[i], parseInt, parseFloat, clock).Err?
  {
    if Roster(rows, parseInt, parseFloat, clock).Err? {
      RaisingRowExists(rows, parseInt, parseFloat, clock);
    } else {
      NoRowRaises(rows, parseInt, parseFloat, clock);
    }
  }

  lemma {:induction false} RaisingRowExists(rows: seq<Row>, parseInt: IntParser, parseFloat: FloatParser, clock: Clock)
    requires Roster(rows, parseInt, parseFloat, clock).Err?
    ensures exists i :: 0 <= i < |rows| && FromRow(rows[i], parseInt, parseFloat, clock).Err?
    decreases |rows|
  {
    var prefix := rows[..|rows| - 1];
    if Roster(prefix, parseInt, parseFloat, clock).Err? {
      RaisingRowExists(prefix, parseInt, parseFloat, clock);
      var i :| 0 <= i < |prefix| && FromRow(prefix[i], parseInt, parseFloat, clock).Err?;
      assert rows[i] == prefix[i];
    } else {
      assert FromRow(rows[|rows| - 1], parseInt, parseFloat, clock).Err?;
    }
  }

  lemma {:induction false} NoRowRaises(rows: seq<Row>, parseInt: IntParser, parseFloat: FloatParser, clock: Clock)
    requires Roster(rows, parseInt, parseFloat, clock).Ok?
    ensures forall i :: 0 <= i < |rows| ==> FromRow(rows[i], parseInt, parseFloat, clock).Ok?
    decreases |rows|
  {
    if rows != [] {
      var prefix := rows[..|rows| - 1];
      NoRowRaises(prefix, parseInt, parseFloat, clock);
      forall i | 0 <= i < |prefix|
        ensures FromRow(rows[i], parseInt, parseFloat, clock).Ok?
      {
        assert rows[i] == prefix[i];
      }
    }
  }

  /** A raise part-way through the roster ends the load. */
  lemma {:induction false} RosterStopsAtFailure(rows: seq<Row>, k: nat, parseInt: IntParser, parseFloat: FloatParser, clock: Clock)
    requires k <= |rows| && Roster(rows[..k], parseInt, parseFloat, clock).Err?
    ensures Roster(rows, parseInt, parseFloat, clock) == Roster(rows[..k], parseInt, parseFloat, clock)
    decreases |rows| - k
  {
    if k < |rows| {
      assert rows[..|rows| - 1][..k] == rows[..k];
      RosterStopsAtFailure(rows[..|rows| - 1], k, parseInt, parseFloat, clock);
    } else {
      assert rows[..k] == rows;
    }
  }

  /** `WeekOneLeague`: the Week 1 records by player ID. */
  class WeekOneLeague {
    var players: Dicts.Dict<WeekOnePlayer>

    ghost predicate Valid()
      reads this
    {
      RosterValid(players)
    }

    constructor Empty()
      ensures Valid() && players.keys == [] && players.values == map[]
    {
      players := Dicts.Empty();
    }

    /** `WeekOneLeague(roster_csv_filename)` over the file's rows: every
        accepted row is stored under its ID, overwriting an earlier record;
        a raise on any row leaves no league. */
    static method Load(rows: seq<Row>, parseInt: IntParser, parseFloat: FloatParser, clock: Clock) returns (r: Result<WeekOneLeague>)
      ensures r.Ok? <==> Roster(rows, parseInt, parseFloat, clock).Ok?
      ensures r.Ok? ==> fresh(r.value) && r.value.Valid() && r.value.players == Roster(rows, parseInt, parseFloat, clock).value
      ensures r.Err? ==> Roster(rows, parseInt, parseFloat, clock) == Err(r.error)
    {
      var league := new WeekOneLeague.Empty();
      var i := 0;
      while i < |rows|
        invariant 0 <= i <= |rows|
        invariant league.Valid()
        invariant Roster(rows[..i], parseInt, parseFloat, clock) == Ok(league.players)
      {
        assert rows[..i + 1][..i] == rows[..i];
        var player := FromRow(rows[i], parseInt, parseFloat, clock);
        if player.Err? {
          RosterStopsAtFailure(rows, i + 1, parseInt, parseFloat, clock);
          return Err(player.error);
        }
        if player.value.Some? {
          league.players := league.players.Put(player.value.value.pid, player.value.value);
        }
        i := i + 1;
      }
      assert rows[..|rows|] == rows;
      return Ok(league);
    }
  }
}
