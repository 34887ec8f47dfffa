/** The statistic catalogue of seasonstats.py: the IDP scoring table, the
    zero-point predictor columns, the layout of a season feature vector built
    from them, and the score and training weight a season earns. */
module Catalog {
  import opened Common
  import Sorting

  /** The keys of FANTASY_POINTS, in the dict's insertion order. The source
      writes "receiving_fumbles_lost" twice; the dict holds it once. */
  const FANTASY_NAMES: seq<string> := [
    "passing_yards",
    "passing_tds",
    "passing_2pt_conversions",
    "interceptions",
    "rushing_yards",
    "rushing_tds",
    "rushing_2pt_conversions",
    "receptions",
    "receiving_yards",
    "receiving_tds",
    "receiving_2pt_conversions",
    "fg_made_distance",
    "pat_made",
    "fg_missed",
    "pat_missed",
    "special_teams_tds",
    "receiving_fumbles_lost",
    "sack_fumbles_lost",
    "def_tds",
    "def_sacks",
    "def_tackles_for_loss",
    "def_interceptions",
    "def_fumble_recovery_opp",
    "def_fumble_recovery_own",
    "def_fumbles_forced",
    "def_safety",
    "def_tackles_with_assist",
    "def_tackles_solo",
    "def_pass_defended"
  ]

  /** The IDP points one unit of each column in FANTASY_NAMES is worth. */
  const FANTASY_VALUES: seq<real> := [
    0.04, 4.0, 2.0, -2.0, 0.1, 6.0, 2.0, 1.0, 0.1, 6.0, 2.0, 0.1, 1.0, -1.0, -1.0, 6.0, -2.0, -2.0, 6.0, 4.0, 2.0, 5.0, 2.0, 2.0, 2.0, 2.0, 0.75, 1.5, 1.5
  ]

  /** FANTASY_POINTS: column name to points, as (name, points) pairs in order. */
  const FANTASY_POINTS: seq<(string, real)> := Pair(FANTASY_NAMES, FANTASY_VALUES)

  /** Pairs each name with the value at the same index. */
  function Pair(names: seq<string>, values: seq<real>): (table: seq<(string, real)>)
    requires |names| == |values|
    ensures |table| == |names|
    ensures forall i :: 0 <= i < |table| ==> table[i] == (names[i], values[i])
  {
    seq(|names|, i requires 0 <= i < |names| => (names[i], values[i]))
  }

  /** The column names of a scoring table, in order. */
  function NamesOf(table: seq<(string, real)>): (names: seq<string>)
    ensures |names| == |table|
    ensures forall i :: 0 <= i < |table| ==> names[i] == table[i].0
  {
    seq(|table|, i requires 0 <= i < |table| => table[i].0)
  }

  /** The zero-point predictors of the offense file, in the tuple's order. */
  const OFFENSE_PREDICTORS: seq<string> := [
      "air_yards_share",
      "attempts",
      "carries",
      "completions",
      "dakota",
      "fantasy_points",
      "fantasy_points_ppr",
      "games",
      "pacr",
      "passing_air_yards",
      "passing_epa",
      "passing_first_downs",
      "passing_yards_after_catch",
      "racr",
      "receiving_air_yards",
      "receiving_epa",
      "receiving_first_downs",
      "receiving_fumbles",
      "receiving_yards_after_catch",
      "rushing_epa",
      "rushing_first_downs",
      "rushing_fumbles",
      "rushing_fumbles_lost",
      "sack_fumbles",
      "sack_yards",
      "sacks",
      "target_share",
      "targets",
      "wopr"
  ]

  /** The zero-point predictors of the defense file, in the tuple's order. */
  const DEFENSE_PREDICTORS: seq<string> := [
      "def_fumble_recovery_yards_opp",
      "def_fumble_recovery_yards_own",
      "def_fumbles",
      "def_interception_yards",
      "def_penalty",
      "def_penalty_yards",
      "def_qb_hits",
      "def_sack_yards",
      "def_tackle_assists",
      "def_tackles",
      "def_tackles_for_loss_yards",
      "def_games"
  ]

  /** The zero-point predictors of the kicking file, in the tuple's order. */
  const KICKING_PREDICTORS: seq<string> := [
      "fg_att",
      "fg_blocked",
      "fg_blocked_distance",
      "fg_long",
      "fg_made",
      "fg_made_0_19",
      "fg_made_20_29",
      "fg_made_30_39",
      "fg_made_40_49",
      "fg_made_50_59",
      "fg_made_60_",
      "fg_missed_0_19",
      "fg_missed_20_29",
      "fg_missed_30_39",
      "fg_missed_40_49",
      "fg_missed_50_59",
      "fg_missed_60_",
      "fg_missed_distance",
      "fg_pct",
      "kck_games",
      "gwfg_att",
      "gwfg_blocked",
      "gwfg_made",
      "gwfg_missed",
      "pat_att",
      "pat_blocked",
      "pat_pct"
  ]

  /** PREDICTORS: the three groups above, one tuple in the source. */
  const PREDICTORS: seq<string> := OFFENSE_PREDICTORS + DEFENSE_PREDICTORS + KICKING_PREDICTORS

  /** SEASON_STAT_FEATURES = sorted(PREDICTORS + FANTASY_POINTS keys). */
  const SEASON_STAT_FEATURES: seq<string> := Sorting.SortStrings(PREDICTORS + NamesOf(FANTASY_POINTS))

  const NUM_SEASON_FEATURES: nat := |SEASON_STAT_FEATURES| + 3 * |TEAMS| + |POSITIONS|

  // ----- the catalogue lists every column once -----

  lemma FantasyNamesDistinct()
    ensures |FANTASY_NAMES| == 29 && Sorting.Distinct(FANTASY_NAMES)
  {
    FantasyNamesHead();
    FantasyNamesTail();
    FantasyNamesAcross();
    Sorting.DistinctJoin(FANTASY_NAMES, 0, 15, 29);
  }

  lemma FantasyNamesHead() ensures |FANTASY_NAMES| == 29 && Sorting.DistinctWithin(FANTASY_NAMES, 0, 15) {}
  lemma FantasyNamesTail() ensures |FANTASY_NAMES| == 29 && Sorting.DistinctWithin(FANTASY_NAMES, 15, 29) {}
  lemma FantasyNamesAcross() ensures |FANTASY_NAMES| == 29 && Sorting.Across(FANTASY_NAMES, FANTASY_NAMES, 0, 15, 15, 29) {}

  /** The table pairs each name with its value and names each column once. */
  lemma FantasyPointsTable()
    ensures NamesOf(FANTASY_POINTS) == FANTASY_NAMES
    ensures Sorting.Distinct(NamesOf(FANTASY_POINTS))
  {
    FantasyNamesDistinct();
  }

  /** Each predictor group lists each column once. */
  lemma PredictorGroupsDistinct()
    ensures Sorting.Distinct(OFFENSE_PREDICTORS)
    ensures Sorting.Distinct(DEFENSE_PREDICTORS)
    ensures Sorting.Distinct(KICKING_PREDICTORS)
  {
    OffenseHead();
    OffenseTail();
    OffenseAcross();
    Sorting.DistinctJoin(OFFENSE_PREDICTORS, 0, 15, 29);
    DefenseDistinct();
    KickingHead();
    KickingTail();
    KickingAcross();
    Sorting.DistinctJoin(KICKING_PREDICTORS, 0, 14, 27);
  }

  lemma OffenseHead() ensures |OFFENSE_PREDICTORS| == 29 && Sorting.DistinctWithin(OFFENSE_PREDICTORS, 0, 15) {}
  lemma OffenseTail() ensures |OFFENSE_PREDICTORS| == 29 && Sorting.DistinctWithin(OFFENSE_PREDICTORS, 15, 29) {}
  lemma OffenseAcross() ensures |OFFENSE_PREDICTORS| == 29 && Sorting.Across(OFFENSE_PREDICTORS, OFFENSE_PREDICTORS, 0, 15, 15, 29) {}
  lemma DefenseDistinct() ensures Sorting.Distinct(DEFENSE_PREDICTORS) {}
  lemma KickingHead() ensures |KICKING_PREDICTORS| == 27 && Sorting.DistinctWithin(KICKING_PREDICTORS, 0, 14) {}
  lemma KickingTail() ensures |KICKING_PREDICTORS| == 27 && Sorting.DistinctWithin(KICKING_PREDICTORS, 14, 27) {}
  lemma KickingAcross() ensures |KICKING_PREDICTORS| == 27 && Sorting.Across(KICKING_PREDICTORS, KICKING_PREDICTORS, 0, 14, 14, 27) {}

  /** No column is listed in two predictor groups. */
  lemma PredictorGroupsDisjoint()
    ensures Sorting.Apart(OFFENSE_PREDICTORS, DEFENSE_PREDICTORS)
    ensures Sorting.Apart(OFFENSE_PREDICTORS, KICKING_PREDICTORS)
    ensures Sorting.Apart(DEFENSE_PREDICTORS, KICKING_PREDICTORS)
  {
    OffenseNotDefense1();
    OffenseNotDefense2();
    Sorting.AcrossJoin(OFFENSE_PREDICTORS, DEFENSE_PREDICTORS, 0, 15, 29, 0, 12);
    OffenseNotKicking1();
    OffenseNotKicking2();
    OffenseNotKicking3();
    Sorting.AcrossJoin(OFFENSE_PREDICTORS, KICKING_PREDICTORS, 0, 10, 20, 0, 27);
    Sorting.AcrossJoin(OFFENSE_PREDICTORS, KICKING_PREDICTORS, 0, 20, 29, 0, 27);
    DefenseNotKicking1();
    DefenseNotKicking2();
    Sorting.AcrossJoin(DEFENSE_PREDICTORS, KICKING_PREDICTORS, 0, 6, 12, 0, 27);
  }

  lemma OffenseNotDefense1() ensures |OFFENSE_PREDICTORS| == 29 && |DEFENSE_PREDICTORS| == 12 && Sorting.Across(OFFENSE_PREDICTORS, DEFENSE_PREDICTORS, 0, 15, 0, 12) {}
  lemma OffenseNotDefense2() ensures |OFFENSE_PREDICTORS| == 29 && |DEFENSE_PREDICTORS| == 12 && Sorting.Across(OFFENSE_PREDICTORS, DEFENSE_PREDICTORS, 15, 29, 0, 12) {}
  lemma OffenseNotKicking1() ensures |OFFENSE_PREDICTORS| == 29 && |KICKING_PREDICTORS| == 27 && Sorting.Across(OFFENSE_PREDICTORS, KICKING_PREDICTORS, 0, 10, 0, 27) {}
  lemma OffenseNotKicking2() ensures |OFFENSE_PREDICTORS| == 29 && |KICKING_PREDICTORS| == 27 && Sorting.Across(OFFENSE_PREDICTORS, KICKING_PREDICTORS, 10, 20, 0, 27) {}
  lemma OffenseNotKicking3() ensures |OFFENSE_PREDICTORS| == 29 && |KICKING_PREDICTORS| == 27 && Sorting.Across(OFFENSE_PREDICTORS, KICKING_PREDICTORS, 20, 29, 0, 27) {}
  lemma DefenseNotKicking1() ensures |DEFENSE_PREDICTORS| == 12 && |KICKING_PREDICTORS| == 27 && Sorting.Across(DEFENSE_PREDICTORS, KICKING_PREDICTORS, 0, 6, 0, 27) {}
  lemma DefenseNotKicking2() ensures |DEFENSE_PREDICTORS| == 12 && |KICKING_PREDICTORS| == 27 && Sorting.Across(DEFENSE_PREDICTORS, KICKING_PREDICTORS, 6, 12, 0, 27) {}

  /** No predictor is a scoring stat. */
  lemma PredictorsScoreNothing()
    ensures Sorting.Apart(OFFENSE_PREDICTORS, FANTASY_NAMES)
    ensures Sorting.Apart(DEFENSE_PREDICTORS, FANTASY_NAMES)
    ensures Sorting.Apart(KICKING_PREDICTORS, FANTASY_NAMES)
  {
    OffenseScoresNothing1();
    OffenseScoresNothing2();
    OffenseScoresNothing3();
    Sorting.AcrossJoin(OFFENSE_PREDICTORS, FANTASY_NAMES, 0, 10, 20, 0, 29);
    Sorting.AcrossJoin(OFFENSE_PREDICTORS, FANTASY_NAMES, 0, 20, 29, 0, 29);
    DefenseScoresNothing1();
    DefenseScoresNothing2();
    Sorting.AcrossJoin(DEFENSE_PREDICTORS, FANTASY_NAMES, 0, 6, 12, 0, 29);
    KickingScoresNothing1();
    KickingScoresNothing2();
    KickingScoresNothing3();
    Sorting.AcrossJoin(KICKING_PREDICTORS, FANTASY_NAMES, 0, 9, 18, 0, 29);
    Sorting.AcrossJoin(KICKING_PREDICTORS, FANTASY_NAMES, 0, 18, 27, 0, 29);
  }

  lemma OffenseScoresNothing1() ensures |OFFENSE_PREDICTORS| == 29 && |FANTASY_NAMES| == 29 && Sorting.Across(OFFENSE_PREDICTORS, FANTASY_NAMES, 0, 10, 0, 29) {}
  lemma OffenseScoresNothing2() ensures |OFFENSE_PREDICTORS| == 29 && |FANTASY_NAMES| == 29 && Sorting.Across(OFFENSE_PREDICTORS, FANTASY_NAMES, 10, 20, 0, 29) {}
  lemma OffenseScoresNothing3() ensures |OFFENSE_PREDICTORS| == 29 && |FANTASY_NAMES| == 29 && Sorting.Across(OFFENSE_PREDICTORS, FANTASY_NAMES, 20, 29, 0, 29) {}
  lemma DefenseScoresNothing1() ensures |DEFENSE_PREDICTORS| == 12 && |FANTASY_NAMES| == 29 && Sorting.Across(DEFENSE_PREDICTORS, FANTASY_NAMES, 0, 6, 0, 29) {}
  lemma DefenseScoresNothing2() ensures |DEFENSE_PREDICTORS| == 12 && |FANTASY_NAMES| == 29 && Sorting.Across(DEFENSE_PREDICTORS, FANTASY_NAMES, 6, 12, 0, 29) {}
  lemma KickingScoresNothing1() ensures |KICKING_PREDICTORS| == 27 && |FANTASY_NAMES| == 29 && Sorting.Across(KICKING_PREDICTORS, FANTASY_NAMES, 0, 9, 0, 29) {}
  lemma KickingScoresNothing2() ensures |KICKING_PREDICTORS| == 27 && |FANTASY_NAMES| == 29 && Sorting.Across(KICKING_PREDICTORS, FANTASY_NAMES, 9, 18, 0, 29) {}
  lemma KickingScoresNothing3() ensures |KICKING_PREDICTORS| == 27 && |FANTASY_NAMES| == 29 && Sorting.Across(KICKING_PREDICTORS, FANTASY_NAMES, 18, 27, 0, 29) {}

  /** No column is both a predictor and a scoring stat, and none is listed twice,
      so `sorted` of the concatenation holds each of the 97 columns once. */
  lemma CatalogueDistinct()
    ensures Sorting.Distinct(PREDICTORS + FANTASY_NAMES)
    ensures |PREDICTORS + FANTASY_NAMES| == 97
  {
    PredictorGroupsDistinct();
    PredictorGroupsDisjoint();
    PredictorsScoreNothing();
    FantasyNamesDistinct();
    Sorting.DistinctConcat4(OFFENSE_PREDICTORS, DEFENSE_PREDICTORS, KICKING_PREDICTORS, FANTASY_NAMES);
  }

  /** SEASON_STAT_FEATURES holds the predictors and the scoring stats, each as
      often as it is listed there. */
  lemma SeasonStatFeaturesContents()
    ensures multiset(SEASON_STAT_FEATURES) == multiset(PREDICTORS) + multiset(FANTASY_NAMES)
  {
    FantasyPointsTable();
    Sorting.SortStringsPermutes(PREDICTORS + FANTASY_NAMES);
  }

  lemma SeasonStatFeaturesCount()
    ensures |SEASON_STAT_FEATURES| == 97
  {
  }

  /** Every column appears in SEASON_STAT_FEATURES once. */
  lemma SeasonStatFeaturesDistinct()
    ensures Sorting.Distinct(SEASON_STAT_FEATURES)
  {
    FantasyPointsTable();
    CatalogueDistinct();
    Sorting.SortStringsPermutes(PREDICTORS + FANTASY_NAMES);
    Sorting.DistinctPermutation(PREDICTORS + FANTASY_NAMES, SEASON_STAT_FEATURES);
  }

  /** SEASON_STAT_FEATURES is in ascending string order without ties. */
  lemma SeasonStatFeaturesSorted()
    ensures Sorting.StrictlySortedStrings(SEASON_STAT_FEATURES)
  {
    FantasyPointsTable();
    CatalogueDistinct();
    Sorting.SortDistinct(PREDICTORS + FANTASY_NAMES);
  }

  /** A season feature vector has 97 + 3 * 32 + 21 slots. */
  lemma SeasonFeatureCount()
    ensures NUM_SEASON_FEATURES == 214
  {
    assert |TEAMS| == 32 && |POSITIONS| == 21;
    SeasonStatFeaturesCount();
  }

  // ----- score and training weight -----

  /** `stats[name]` on the defaultdict: a stat never recorded counts as 0. */
  function Total(stats: map<string, real>, name: string): real {
    if name in stats then stats[name] else 0.0
  }

  /** The sum of points times total over a scoring table. */
  function PointsOver(table: seq<(string, real)>, stats: map<string, real>): real {
    if table == [] then 0.0
    else table[0].1 * Total(stats, table[0].0) + PointsOver(table[1..], stats)
  }

  /** `idp_score()` of a season whose stat totals are `stats`. */
  function IdpScore(stats: map<string, real>): (r: real)
    ensures (forall i :: 0 <= i < |FANTASY_POINTS| ==> FANTASY_POINTS[i].0 !in stats) ==> r == 0.0
  {
    if forall i :: 0 <= i < |FANTASY_POINTS| ==> FANTASY_POINTS[i].0 !in stats then
      ZeroPoints(FANTASY_POINTS, stats);
      PointsOver(FANTASY_POINTS, stats)
    else PointsOver(FANTASY_POINTS, stats)
  }

  /** `weight()`: max(score / 100, 1.0). */
  function ImportanceWeight(score: real): (w: real)
    ensures w >= 1.0 && w >= score / 100.0
    ensures w == 1.0 || w == score / 100.0
  {
    if 1.0 > score / 100.0 then 1.0 else score / 100.0
  }

  /** The score reads only the totals of scoring stats. */
  lemma {:induction false} PointsReadOnlyTable(table: seq<(string, real)>, a: map<string, real>, b: map<string, real>)
    requires forall i :: 0 <= i < |table| ==> Total(a, table[i].0) == Total(b, table[i].0)
    ensures PointsOver(table, a) == PointsOver(table, b)
  {
    if table != [] {
      assert forall i :: 0 <= i < |table[1..]| ==> table[1..][i] == table[i + 1];
      PointsReadOnlyTable(table[1..], a, b);
    }
  }

  /** The score is additive: totals that are the sum of two seasons' totals
      score the sum of the two seasons' scores. */
  lemma {:induction false} PointsAdditive(table: seq<(string, real)>, a: map<string, real>, b: map<string, real>, sum: map<string, real>)
    requires forall i :: 0 <= i < |table| ==> Total(sum, table[i].0) == Total(a, table[i].0) + Total(b, table[i].0)
    ensures PointsOver(table, sum) == PointsOver(table, a) + PointsOver(table, b)
  {
    if table != [] {
      assert forall i :: 0 <= i < |table[1..]| ==> table[1..][i] == table[i + 1];
      PointsAdditive(table[1..], a, b, sum);
      var p, n := table[0].1, table[0].0;
      assert p * Total(sum, n) == p * Total(a, n) + p * Total(b, n);
    }
  }

  /** A table that lists each column once scores a single recorded stat at its
      own points value. */
  lemma {:induction false} PointsOfOneStat(table: seq<(string, real)>, idx: nat, v: real)
    requires idx < |table| && Sorting.Distinct(NamesOf(table))
    ensures PointsOver(table, map[table[idx].0 := v]) == table[idx].1 * v
  {
    var k := table[idx].0;
    var tail := table[1..];
    assert NamesOf(tail) == NamesOf(table)[1..];
    if idx == 0 {
      assert forall i :: 0 <= i < |tail| ==> Total(map[k := v], tail[i].0) == 0.0 by {
        forall i | 0 <= i < |tail| ensures Total(map[k := v], tail[i].0) == 0.0 {
          assert NamesOf(table)[i + 1] == tail[i].0;
        }
      }
      ZeroPoints(tail, map[k := v]);
    } else {
      assert NamesOf(table)[0] != NamesOf(table)[idx];
      assert tail[idx - 1] == table[idx];
      PointsOfOneStat(tail, idx - 1, v);
    }
  }

  /** A season with 10 receptions, 120 receiving yards and one receiving
      touchdown scores 10 * 1 + 120 * 0.1 + 1 * 6 = 28 points. */
  lemma ReceiverScoreExample()
    ensures IdpScore(map["receptions" := 10.0, "receiving_yards" := 120.0, "receiving_tds" := 1.0]) == 28.0
  {
    var receptions, yards, tds := map["receptions" := 10.0], map["receiving_yards" := 120.0], map["receiving_tds" := 1.0];
    var yardsAndTds := map["receiving_yards" := 120.0, "receiving_tds" := 1.0];
    var all := map["receptions" := 10.0, "receiving_yards" := 120.0, "receiving_tds" := 1.0];
    FantasyPointsTable();
    assert FANTASY_POINTS[7] == ("receptions", 1.0);
    assert FANTASY_POINTS[8] == ("receiving_yards", 0.1);
    assert FANTASY_POINTS[9] == ("receiving_tds", 6.0);
    PointsOfOneStat(FANTASY_POINTS, 7, 10.0);
    PointsOfOneStat(FANTASY_POINTS, 8, 120.0);
    PointsOfOneStat(FANTASY_POINTS, 9, 1.0);
    assert forall x :: Total(yardsAndTds, x) == Total(yards, x) + Total(tds, x);
    PointsAdditive(FANTASY_POINTS, yards, tds, yardsAndTds);
    assert forall x :: Total(all, x) == Total(receptions, x) + Total(yardsAndTds, x);
    PointsAdditive(FANTASY_POINTS, receptions, yardsAndTds, all);
  }

  /** Non-negative points on non-negative totals score at least 0. */
  lemma {:induction false} PointsNonNegative(table: seq<(string, real)>, stats: map<string, real>)
    requires forall i :: 0 <= i < |table| ==> table[i].1 >= 0.0 && Total(stats, table[i].0) >= 0.0
    ensures PointsOver(table, stats) >= 0.0
  {
    if table != [] {
      assert forall i :: 0 <= i < |table[1..]| ==> table[1..][i] == table[i + 1];
      PointsNonNegative(table[1..], stats);
    }
  }

  lemma {:induction false} ZeroPoints(table: seq<(string, real)>, m: map<string, real>)
    requires forall i :: 0 <= i < |table| ==> Total(m, table[i].0) == 0.0
    ensures PointsOver(table, m) == 0.0
  {
    if table != [] {
      assert forall i :: 0 <= i < |table[1..]| ==> table[1..][i] == table[i + 1];
      ZeroPoints(table[1..], m);
    }
  }
}
