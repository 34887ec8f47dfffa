/** Helpers shared by the loaders: CSV rows, the team and position
    enumerations, and the parse of a numeric field that may be empty. */
module Common {
  import opened Results
  import Sorting

  /** One CSV record as `csv.DictReader` yields it: column name to text. */
  type Row = map<string, string>

  /** Python's `float(text)`: the value, or None where it raises ValueError.
      Which texts it accepts is not modelled, so it is a parameter. */
  type FloatParser = string -> Option<real>

  /** `row[column]`, which raises KeyError on a missing column. */
  function Field(row: Row, column: string): (r: Result<string>)
    ensures column in row ==> r == Ok(row[column])
    ensures column !in row ==> r == Err(KeyMissing(column))
  {
    if column in row then Ok(row[column]) else Err(KeyMissing(column))
  }

  /** `row.get(column, default)` */
  function FieldOr(row: Row, column: string, default: string): string {
    if column in row then row[column] else default
  }

  /** The thirty-two NFL teams; a team's index picks its slot in a feature vector. */
  const TEAMS: seq<string> := [
    "ARI", "ATL", "BAL", "BUF", "CAR",
    "CHI", "CIN", "CLE", "DAL", "DEN",
    "DET", "GB", "HOU", "IND", "JAX",
    "KC", "LA", "LAC", "LV", "MIA",
    "MIN", "NE", "NO", "NYG", "NYJ",
    "PHI", "PIT", "SEA", "SF", "TB",
    "TEN", "WAS"
  ]

  /** The supported player positions; a position's index picks its slot. */
  const POSITIONS: seq<string> := [
    "C", "CB", "DB", "DE", "DT",
    "FB", "FS", "G", "ILB", "K",
    "LB", "MLB", "NT", "OLB", "P",
    "QB", "RB", "SS", "T", "TE",
    "WR"
  ]

  lemma TeamsAreDistinct()
    ensures |TEAMS| == 32 && Sorting.Distinct(TEAMS)
  {
    TeamsHead();
    TeamsTail();
    TeamsAcross();
    Sorting.DistinctJoin(TEAMS, 0, 16, 32);
  }

  lemma TeamsHead() ensures |TEAMS| == 32 && Sorting.DistinctWithin(TEAMS, 0, 16) {}
  lemma TeamsTail() ensures |TEAMS| == 32 && Sorting.DistinctWithin(TEAMS, 16, 32) {}
  lemma TeamsAcross() ensures |TEAMS| == 32 && Sorting.Across(TEAMS, TEAMS, 0, 16, 16, 32) {}

  /** Twenty-one positions, although the comment above the tuple says twenty-six. */
  lemma PositionsAreDistinct()
    ensures |POSITIONS| == 21 && Sorting.Distinct(POSITIONS)
  {
  }

  /** `empty_float(s, default)`: an empty string stands for `default`, any
      other text is parsed and a parse failure propagates. */
  function EmptyFloat(parse: FloatParser, s: string, default: real := 0.0): (r: Result<real>)
    ensures s == "" ==> r == Ok(default)
    ensures s != "" && parse(s).Some? ==> r == Ok(parse(s).value)
    ensures s != "" && parse(s).None? ==> r == Err(MalformedNumber(s))
  {
    if s == "" then Ok(default)
    else match parse(s)
      case Some(x) => Ok(x)
      case None => Err(MalformedNumber(s))
  }
}
