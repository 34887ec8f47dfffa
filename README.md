# lombardotron feature pipeline in Dafny

This project models the part of lombardotron that turns per-player CSV rows
into the labelled examples its ridge regression is fitted on. It covers:

- the row helpers and fixed orderings of `common.py`: `empty_float`, `TEAMS`,
  `POSITIONS`;
- the statistic catalogue of `seasonstats.py`: the IDP scoring table
  `FANTASY_POINTS`, the zero-point `PREDICTORS`, `SEASON_STAT_FEATURES`,
  `NUM_SEASON_FEATURES`;
- the per-player season aggregator `PlayerSeason` (`add_row`, `roles`,
  `idp_score`, `weight`, `features`) and the season loader `SeasonStats`
  (`_add_file`, `player_ids`, `get_player_stats`);
- the Week 1 roster of `weekonestats.py`: `WeekOnePlayer.from_row`,
  `WeekOnePlayer.features` and the `WeekOneLeague` loop;
- the example assembly of `predict_season_main.py`: `NUM_FEATURES`,
  `LabelledExamples.__post_init__`, `split`, `merge`,
  `build_labelled_examples` and `build_unlabelled_examples`.

Modules, one per concern:

| file | module | models |
|---|---|---|
| results.dfy | `Results` | `Option`, `Result`, `Outcome`, and one `Error` constructor per exception the code raises |
| dicts.dfy | `Dicts` | a Python `dict` with string keys, which remembers the order keys were first inserted |
| sorting.dfy | `Sorting` | `sorted()` on strings (code-point order) and the stable weight-descending sort of `roles()` |
| common.dfy | `Common` | `common.py` |
| catalog.dfy | `Catalog` | the catalogue constants of `seasonstats.py`, `idp_score` and `weight` on stat totals |
| player_season.dfy | `PlayerSeasons` | `PlayerSeason`: a class with the source's five dictionaries as fields, proved against the `Totals` value functions |
| season_stats.dfy | `Seasons` | `SeasonStats`: a class holding the players by ID, proved against `LoadRow`/`LoadRows`/`LoadSeason` |
| week_one.dfy | `WeekOne` | `weekonestats.py` |
| examples.dfy | `Examples` | `LabelledExamples` with its checks, `split` and `merge` |
| predict.dfy | `Predict` | `NUM_FEATURES` and the two example builders |
| season_order.dfy | `SeasonOrder` | that a season's totals do not depend on the order of its rows or of its three files |

Every raise of the source is an `Err`/`Fail` value. Where the source has
changed state before it raises, the model returns that partial state too.
For example, `add_row` records a position's weight before it looks for a team.
Dictionary iteration order is observable in `roles()`, `player_ids` and the
roster loop, so those dictionaries are `Dicts.Dict` values: a key sequence plus a map.
The imperative code (`add_row`, `features`, `_add_file`, the roster loop,
`split`, the two builders) is written as methods with loops. Each method is
proved to produce exactly what a pure specification function says. The
properties are proved as lemmas about those functions.

Notes on the code:

- `POSITIONS` has 21 entries, although its comment says twenty-six. A season
  feature vector therefore has 97 + 3 * 32 + 21 = 214 slots, and an example
  row has 230.
- `add_row` takes the unit from the first game-count column present (`games`,
  then `def_games`, then `kck_games`). The code does not require that exactly
  one of them is present.
- `__post_init__` checks only the number of feature rows, not their width.
  `merge` accepts any scale, not only scales below 1.
- A roster row whose `week` is not an integer raises. It is not dropped.
- The order of a season's rows, and of its three files, changes neither
  whether loading raises nor any player's weights, stats or game counts
  (`SeasonOrder.FilesInAnyOrder`). It does change four things: the name a
  player keeps (the one on its first row), the order of `player_ids`, which
  error is raised when several rows would raise, and the order in which each
  player's positions are first recorded, and so the order in which `roles()`
  lists positions of equal weight.

## Model

| member | source | states |
|---|---|---|
| Dicts.Dict.Put | weekonestats.py:102 | `d[k] = v`: the map gains the entry; a new key goes to the end of the order, an existing key keeps its place; the dictionary stays well formed |
| Dicts.Dict.PutTwice | weekonestats.py:102 | assigning a key twice leaves what the second assignment alone leaves |
| Sorting.SortStringsPermutes | seasonstats.py:132 | `sorted()` returns a permutation of its input |
| Sorting.SortStringsSorted | seasonstats.py:132 | `sorted()` returns its input in non-decreasing code-point order |
| Sorting.SortByWeightPermutes | seasonstats.py:224 | the sort by weight in `roles()` returns a permutation of the positions |
| Sorting.SortByWeightSorted | seasonstats.py:224 | the positions come out heaviest first |
| Sorting.SortByWeightStable | seasonstats.py:224 | positions of equal weight keep their relative order (Python's sort is stable) |
| Common.Field | weekonestats.py:61-89 | `row[column]` is the field when the column exists and raises KeyError naming the column otherwise |
| Common.TeamsAreDistinct | common.py:5-13 | TEAMS holds 32 distinct codes |
| Common.PositionsAreDistinct | common.py:15-22 | POSITIONS holds 21 distinct codes, not the 26 its comment claims |
| Common.EmptyFloat | common.py:25-29 | the empty string gives the default (0.0 unless given); any other text gives its float parse, and a failed parse raises instead of defaulting |
| Catalog.FantasyNamesDistinct | seasonstats.py:16-58 | the scoring table has 29 distinct columns; the duplicated `receiving_fumbles_lost` line counts once |
| Catalog.FantasyPointsTable | seasonstats.py:16-58 | the (column, points) table names each column once, in the dict's order |
| Catalog.PredictorGroupsDistinct | seasonstats.py:61-130 | the offense, defense and kicking predictor groups each list a column once |
| Catalog.PredictorGroupsDisjoint | seasonstats.py:61-130 | no column is in two predictor groups |
| Catalog.PredictorsScoreNothing | seasonstats.py:16-130 | no predictor column is a scoring column |
| Catalog.CatalogueDistinct | seasonstats.py:132 | PREDICTORS plus the scoring columns are 97 distinct names |
| Catalog.SeasonStatFeaturesContents | seasonstats.py:132 | SEASON_STAT_FEATURES holds exactly the predictors and the scoring columns |
| Catalog.SeasonStatFeaturesCount | seasonstats.py:132 | SEASON_STAT_FEATURES has 97 entries |
| Catalog.SeasonStatFeaturesDistinct | seasonstats.py:132 | SEASON_STAT_FEATURES lists each name once |
| Catalog.SeasonStatFeaturesSorted | seasonstats.py:132 | SEASON_STAT_FEATURES is strictly increasing |
| Catalog.SeasonFeatureCount | seasonstats.py:135-139 | NUM_SEASON_FEATURES is 97 + 3 * 32 + 21 = 214 |
| Catalog.ImportanceWeight | seasonstats.py:234-244 | the weight is at least 1 and at least score / 100, and equals one of the two |
| Catalog.PointsNonNegative | seasonstats.py:227-232 | with non-negative points and non-negative totals the score sum is at least 0 |
| Catalog.IdpScore | seasonstats.py:227-232 | a season with no scoring stat recorded scores 0 |
| Catalog.PointsReadOnlyTable | seasonstats.py:227-232 | the score depends only on the totals of the scoring columns |
| Catalog.PointsAdditive | seasonstats.py:227-232 | the score of summed totals is the sum of the scores |
| Catalog.PointsOfOneStat | seasonstats.py:227-232 | a season with one scoring stat scores its points times its total |
| Catalog.ReceiverScoreExample | seasonstats.py:26-30 | 10 receptions, 120 receiving yards and 1 receiving TD score 28 points |
| Catalog.ZeroPoints | seasonstats.py:227-232 | no scoring stat recorded means a score of 0 |
| PlayerSeasons.NewTotals | seasonstats.py:173-181 | a new player has its ID and name, no positions, no game counts and no stats |
| PlayerSeasons.TeamOf | seasonstats.py:195-201 | a row has a team exactly when it has `recent_team` or `team`, and `recent_team` wins when both are present |
| PlayerSeasons.UnitOf | seasonstats.py:202-215 | a row has a unit exactly when it has one of the three game-count columns; the unit's own column is present, and `games` wins over the others |
| PlayerSeasons.GameCount | seasonstats.py:191-193 | a missing column reads as "0", an empty one as 0, and a failed parse raises a malformed-number error |
| PlayerSeasons.MissingCountsAddNothing | seasonstats.py:190-194 | with "0" read as 0, a missing game-count column adds nothing to the position's weight |
| PlayerSeasons.AddPositionWeight | seasonstats.py:189-194 | the position step changes only the position weights |
| PlayerSeasons.AddStat | seasonstats.py:216-219 | adding one stat can fail only on a malformed number |
| PlayerSeasons.StatsOver | seasonstats.py:216-219 | the stat loop can fail only on a malformed number |
| PlayerSeasons.StatsOverStops | seasonstats.py:216-219 | the stat loop ends at the first value that fails to parse |
| PlayerSeasons.RecordGames | seasonstats.py:195-215 | the team and unit step touches neither position weights nor stats |
| PlayerSeasons.AddRowSpec | seasonstats.py:187-219 | `add_row` keeps the player's ID and name and leaves it well formed |
| PlayerSeasons.AddRowOver | seasonstats.py:187-219 | the same for any list of stat columns |
| PlayerSeasons.MissingPositionChangesNothing | seasonstats.py:189 | a row without `position` raises KeyError and changes nothing |
| PlayerSeasons.PositionWeightGrowsFirst | seasonstats.py:189-194 | the row's position gains the sum of the three game counts (a missing one counts as "0"); other positions keep their weight; a new position goes last |
| PlayerSeasons.PositionStep | seasonstats.py:189-194 | the same for the position step alone |
| PlayerSeasons.BadCountKeepsPositionEntry | seasonstats.py:189-194 | a game count that fails to parse raises after the position has been recorded with its old weight (the defaultdict entry) |
| PlayerSeasons.NoTeamRaises | seasonstats.py:195-201 | with neither `recent_team` nor `team`, `add_row` raises "No team" after the position step, leaving games and stats alone |
| PlayerSeasons.NoUnitRaises | seasonstats.py:202-215 | with no game-count column, `add_row` raises "No games count", leaving games and stats alone |
| PlayerSeasons.DuplicateGamesRaise | seasonstats.py:202-213 | a second row for the same unit and team raises "Multiple insertion", naming unit, team and player, leaving games and stats alone |
| PlayerSeasons.GameCountRecorded | seasonstats.py:202-215 | a first row for a (unit, team) records `empty_float` of that unit's column under the team and leaves the other units alone |
| PlayerSeasons.RecordGamesStep | seasonstats.py:195-215 | the team and unit step raises on a duplicate and otherwise records exactly that one count |
| PlayerSeasons.StatsStepKeepsGames | seasonstats.py:216-219 | the stat loop changes no game count and can fail only on a malformed number |
| PlayerSeasons.StatsOverPasses | seasonstats.py:216-219 | the stat loop passes if and only if every listed stat the row has parses |
| PlayerSeasons.StatsOverGrowth | seasonstats.py:216-219 | after the loop, each listed stat in the row has grown by its parsed value and every other total is unchanged |
| PlayerSeasons.StatsGrow | seasonstats.py:216-219 | after a successful `add_row`, each listed stat in the row has grown by its parsed value and every other total is unchanged |
| PlayerSeasons.CatalogueStatsGrow | seasonstats.py:216-219 | the same for the catalogue SEASON_STAT_FEATURES |
| PlayerSeasons.RoleOrderIsRanking | seasonstats.py:221-225 | `roles()` lists every recorded position once, heaviest first, equal weights in first-seen order |
| PlayerSeasons.RoleOrder | seasonstats.py:222-225 | the ranked positions are a permutation of the recorded ones |
| PlayerSeasons.Roles | seasonstats.py:221-225 | no position gives the empty string, and a single position gives its own name |
| PlayerSeasons.Score | seasonstats.py:227-232 | a player with no scoring stat recorded scores 0 |
| PlayerSeasons.TrainingWeight | seasonstats.py:234-244 | `weight()` is at least 1 and at least score / 100 |
| PlayerSeasons.TrainingWeightBounds | seasonstats.py:234-244 | `weight()` is never below 1, is score / 100 from a score of 100 up, and is 1 up to 100 |
| PlayerSeasons.TotalsOf | seasonstats.py:246-251 | slot i holds the total of the i-th name, 0 for a name not recorded |
| PlayerSeasons.StatBlock | seasonstats.py:246-247 | the stat block has one slot per catalogue column |
| PlayerSeasons.TeamBlock | seasonstats.py:249-251 | a team block has one slot per team |
| PlayerSeasons.PositionBlock | seasonstats.py:253-254 | the position block has one slot per position |
| PlayerSeasons.WeightsOf | seasonstats.py:253-254 | slot p holds the weight of the p-th position, 0 for one not recorded |
| PlayerSeasons.FeatureVectorLayout | seasonstats.py:246-264 | `features()` has NUM_SEASON_FEATURES slots: the 97 stat totals in catalogue order, then offense, defense and kicking game counts per team in TEAMS order (0 for a team not recorded), then the 21 position weights in POSITIONS order |
| PlayerSeasons.FeatureVector | seasonstats.py:246-264 | the season vector has NUM_SEASON_FEATURES slots, starts with the stat block and ends with the position block |
| PlayerSeasons.Fill | seasonstats.py:253-254 | reading positions through the defaultdict leaves a well-formed dictionary |
| PlayerSeasons.FillPositions | seasonstats.py:253-254 | the same for a whole player |
| PlayerSeasons.FillKeepsWeights | seasonstats.py:253-254 | reading through the defaultdict changes no weight |
| PlayerSeasons.FillRecordsNames | seasonstats.py:253-254 | it records exactly the names read, after the recorded ones, whose order is kept |
| PlayerSeasons.FillIdempotent | seasonstats.py:253-254 | reading the same names twice records no more than reading them once |
| PlayerSeasons.FillAgain | seasonstats.py:253-254 | reading names already recorded changes nothing |
| PlayerSeasons.FillKeepsFeatures | seasonstats.py:253-264 | a second `features()` or `idp_score()` gives the same values as the first; every position is recorded afterwards |
| PlayerSeasons.PlayerSeason.constructor | seasonstats.py:173-181 | a new aggregator holds `NewTotals(pid, name)` |
| PlayerSeasons.PlayerSeason.AddRow | seasonstats.py:187-219 | `add_row` changes the fields to, and raises as, `AddRowSpec` of the old state |
| PlayerSeasons.PlayerSeason.AddRowOverNames | seasonstats.py:187-219 | the same for any list of stat columns |
| PlayerSeasons.PlayerSeason.WeighPosition | seasonstats.py:189-194 | the position step in place, as `AddPositionWeight` |
| PlayerSeasons.PlayerSeason.RecordTeamGames | seasonstats.py:195-215 | the team and unit step in place, as `RecordGames` |
| PlayerSeasons.PlayerSeason.AddStats | seasonstats.py:216-219 | the stat loop in place, as `StatsOver`, touching no other field |
| PlayerSeasons.PlayerSeason.Features | seasonstats.py:256-264 | `features()` returns `FeatureVector` of the old state and records the unseen positions at weight 0 |
| PlayerSeasons.PlayerSeason.ReadWeights | seasonstats.py:253-254 | the position loop returns each weight in order and records the unseen names |
| PlayerSeasons.PlayerSeason.RolesText | seasonstats.py:221-225 | `roles()` of the object is `Roles` of its positions: empty when no position is recorded |
| PlayerSeasons.PlayerSeason.IdpScore | seasonstats.py:227-232 | `idp_score()` of the object is `Score` of its state: 0 when no stat is recorded |
| PlayerSeasons.PlayerSeason.Weight | seasonstats.py:234-244 | `weight()` of the object is `TrainingWeight` of its state, at least 1 |
| Seasons.LoadRow | seasonstats.py:279-285 | one row of `_add_file` keeps every player stored under its own ID with valid totals |
| Seasons.Matches | seasonstats.py:279-280 | a row without a `season_type` column never matches, so it is skipped |
| Seasons.PlayerFor | seasonstats.py:283-285 | a stored ID gets its stored player; a new ID gets a fresh player with the row's name and nothing recorded; in a valid league the player carries that ID |
| Seasons.LoadRows | seasonstats.py:276-286 | the same for a whole file |
| Seasons.LoadSeason | seasonstats.py:270-274 | the same for the three files of a season |
| Seasons.LoadRowStoresPlayer | seasonstats.py:279-285 | a row of another season type changes nothing; a matching row stores its player (a new ID goes last, named by this row) and no other player changes |
| Seasons.LoadedIdsInFirstSeenOrder | seasonstats.py:276-290 | the IDs after a file are the old IDs, then each new matching ID in the order first seen |
| Seasons.NoRowsNoPlayer | seasonstats.py:279-285 | an ID with no matching row is not created |
| Seasons.LoadRowAddsToPlayer | seasonstats.py:283-285 | a matching row's player becomes `add_row` of the stored player, or of a new one named by the row |
| Seasons.PlayerGetsOwnRows | seasonstats.py:276-286 | after a file, each player's totals are `add_row` applied to that player's own matching rows in order, and the name is the one from its first row |
| Seasons.LoadRowsStopsAtFailure | seasonstats.py:276-286 | a raise ends the file: later rows change nothing |
| Seasons.SeasonStats.Empty | seasonstats.py:270-271 | a new season has no players |
| Seasons.SeasonStats.LoadRowInPlace | seasonstats.py:279-285 | one row in place, as `LoadRow` |
| Seasons.SeasonStats.LoadRowOver | seasonstats.py:279-285 | the same for any list of stat columns |
| Seasons.SeasonStats.AddFile | seasonstats.py:276-286 | `_add_file` in place, as `LoadRows` |
| Seasons.SeasonStats.AddFileOver | seasonstats.py:276-286 | the same for any list of stat columns |
| Seasons.SeasonStats.Load | seasonstats.py:270-274 | `SeasonStats(...)` is a new object holding `LoadSeason` of the three files, or raises what that raises |
| Seasons.SeasonStats.PlayerIds | seasonstats.py:288-290 | `player_ids` lists every stored ID once and nothing else |
| Seasons.SeasonStats.GetPlayerStats | seasonstats.py:292-294 | `get_player_stats` returns exactly the player stored under that ID, and raises for an unknown ID |
| SeasonOrder.AddRowPasses | seasonstats.py:187-219 | `add_row` passes exactly when the row has a position, parsing counts, a team, a unit and parsing stats, and its (unit, team) is not yet recorded |
| SeasonOrder.AddRowEffect | seasonstats.py:187-219 | a passing `add_row` adds the counts to the position, records the count under the team for the row's unit only, and runs the stat loop |
| SeasonOrder.GrownCommute | seasonstats.py:216-219 | two rows' stat growth gives the same totals in either order |
| SeasonOrder.StatsCommute | seasonstats.py:216-219 | the stat loops of two rows that both finish give the same totals in either order |
| SeasonOrder.GamesCommute | seasonstats.py:202-213 | game counts recorded for two different (unit, team) slots give the same tables in either order |
| SeasonOrder.AddRowsCommute | seasonstats.py:187-219 | adding two rows to one player passes for both in one order exactly when it does in the other, and then gives the same weights, stats and game counts |
| SeasonOrder.ThenSwap | seasonstats.py:276-286 | two consecutive rows of `_add_file` in either order: both orders raise or neither does, and otherwise they give the same players with the same totals |
| SeasonOrder.AnyRowOrder | seasonstats.py:276-286 | the rows of a file in any order: the load raises for one order exactly when it raises for the other, and otherwise holds the same players with the same totals |
| SeasonOrder.LoadRowsAppend | seasonstats.py:272-286 | loading two lists of rows one after the other is loading them joined |
| SeasonOrder.LoadSeasonJoined | seasonstats.py:270-274 | a season loads its three files as one list of rows, offense first |
| SeasonOrder.SeasonRowsInAnyOrder | seasonstats.py:270-286 | the same rows spread over the three files in any way and order: the season raises for one exactly when it raises for the other (the error may differ), and otherwise holds the same players with the same totals |
| SeasonOrder.FilesInAnyOrder | seasonstats.py:270-274 | loading the offense, defense and kicking files in any of the six orders raises for all or for none, and otherwise gives every player the same weights, stats and game counts |
| WeekOne.Features | weekonestats.py:49-56 | `features()` has 8 slots, one per WEEK_ONE_FEATURES name in that order; slot 0 is 1.0 if active and 0.0 if not |
| WeekOne.IntField | weekonestats.py:64 | `int(row[column])` succeeds exactly when the column exists and parses |
| WeekOne.FloatField | weekonestats.py:83-85 | `float(row[column])` succeeds exactly when the column exists and parses |
| WeekOne.YearsSince | weekonestats.py:70-73 | an age from a year succeeds only if the year parses |
| WeekOne.ShortName | weekonestats.py:78 | `short_name` is the first letter of `first_name`, ".", then `last_name`; an empty first name raises |
| WeekOne.Dropped | weekonestats.py:61-67 | a row is kept exactly when its ID is non-empty, its week parses to 1 and its birth date is non-empty; a raise names a missing column or an unparsable week |
| WeekOne.Build | weekonestats.py:68-89 | a built record has the row's ID, name, team, position, age from the birth date, height, weight and experience, and is active exactly for status "ACT" |
| WeekOne.FromRow | weekonestats.py:58-89 | a row is dropped if and only if it has an empty ID, or else a week other than 1, or else an empty birth date; an accepted record has the row's ID, `active` exactly when the status is "ACT", the short name above, and a draft number of 400 when that field is empty; its name, team, position, height, weight, experience and three ages are those of the row, and it is the record `Build` makes |
| WeekOne.Roster | weekonestats.py:95-102 | the roster is a well-formed dictionary of records stored under their own IDs |
| WeekOne.Accepted | weekonestats.py:97-102 | the accepted records are no more than the rows, and each has a non-empty ID |
| WeekOne.LastAcceptedRowWins | weekonestats.py:97-102 | the roster holds exactly the IDs of accepted rows, each with the last accepted record for it |
| WeekOne.RosterFailsOnRaise | weekonestats.py:97-102 | loading raises if and only if some row raises |
| WeekOne.RaisingRowExists | weekonestats.py:97-102 | a failed load has a row that raises |
| WeekOne.NoRowRaises | weekonestats.py:97-102 | in a successful load no row raises |
| WeekOne.RosterStopsAtFailure | weekonestats.py:97-102 | a raise ends the load: later rows change nothing |
| WeekOne.WeekOneLeague.Empty | weekonestats.py:96 | a new league has no players |
| WeekOne.WeekOneLeague.Load | weekonestats.py:95-102 | `WeekOneLeague(...)` is a new object holding `Roster` of the rows, or raises what that raises |
| Examples.NewExamplesAsWritten | predict_season_main.py:29-38 | construction succeeds exactly when labels, weights and feature rows are each as many as the IDs |
| Examples.MisreportedRowCount | predict_season_main.py:36-38 | when only the feature rows are miscounted, the message reports two equal counts and not the number of rows |
| Examples.OneIdNoRows | predict_season_main.py:29-38 | one ID, one label, one weight and no row: as written the message is "1 but 1"; corrected it is "1 but 0" |
| Examples.NewExamples | predict_season_main.py:29-38 | construction succeeds exactly when all four counts agree; otherwise the first column that disagrees is named, in the source's order, with its real length, which differs from the number of IDs |
| Examples.CorrectionOnlyRewordsMessage | predict_season_main.py:29-38 | the corrected check accepts exactly what the written one accepts and builds the same examples; the two differ only when the feature rows alone are miscounted |
| Examples.SideIndices | predict_season_main.py:53-68 | the positions on one side are positions of the input |
| Examples.GoesLeft | predict_season_main.py:53-59 | with a fraction of 1 or more every ID goes left; with a negative fraction none does |
| Examples.SplitOf | predict_season_main.py:45-82 | the two sides are valid example sets whose sizes sum to the input's; every left ID passes the hash test and every right one fails it |
| Examples.Split | predict_season_main.py:40-82 | `split`, with salt "" and fraction 0.8 by default, returns the two sides of `SplitOf` |
| Examples.SideIndicesMembers | predict_season_main.py:53-68 | a position is on the left exactly when `hash(salt + pid) % 1000000 <= fraction * 1000000`, and each side's positions increase |
| Examples.SideSizes | predict_season_main.py:45-68 | the two sides' sizes sum to the input's size |
| Examples.SplitPartitions | predict_season_main.py:45-82 | every example goes to exactly one side, in its original relative order, with its own row, label and weight; both sides are valid example sets |
| Examples.SplitBySaltedId | predict_season_main.py:53-59 | the side depends on `salt + pid` alone: the left holds exactly the IDs that pass the test, the right those that fail, so no ID is on both sides |
| Examples.SidesCover | predict_season_main.py:45-82 | between them the two sides hold every entry of a column exactly once |
| Examples.Scaled | predict_season_main.py:94-97 | each second-set weight is multiplied by the scale |
| Examples.Merge | predict_season_main.py:84-103 | `merge` of two valid sets is valid and as long as the two together; the first set's weights come first, unchanged, then the second set's times the scale |
| Examples.MergeLayout | predict_season_main.py:84-103 | `merge` holds the first set unchanged, then the second set with scaled weights; the length is the sum; the result is a valid example set |
| Examples.MergeUndoesSplit | predict_season_main.py:40-103 | merging the two sides of a split with scale 1 gives back the same IDs, rows, labels and weights, possibly reordered |
| Predict.FeatureCount | predict_season_main.py:16-19 | NUM_FEATURES is 2 * 8 + 214 = 230 |
| Predict.Zeros | predict_season_main.py:124 | `numpy.zeros` has the width asked for and only zeros |
| Predict.Assign | predict_season_main.py:125-130 | a slice assignment sets the slice's slots to the block and keeps every other slot |
| Predict.SeasonBlockWidth | predict_season_main.py:130 | a season feature vector exactly fills the slots after the two Week 1 blocks |
| Predict.ExampleRow | predict_season_main.py:124-130 | an example row has NUM_FEATURES slots and starts with the next roster's features |
| Predict.ExampleRowLayout | predict_season_main.py:124-130 | every example row has NUM_FEATURES slots: the next roster's 8 features, then the previous roster's 8 or zeros, then the previous season's 214 or zeros |
| Predict.FillRow | predict_season_main.py:124-130 | the loop body's row is `ExampleRow` of the player |
| Predict.OnRoster | predict_season_main.py:117-120 | the IDs kept are exactly those of the list that the roster holds |
| Predict.OnRosterDistinct | predict_season_main.py:115-120 | the next season lists each player once, so each labelled player appears once |
| Predict.Labelled | predict_season_main.py:117-131 | the gathered labelled examples are aligned, are IDs of the next season that the next roster holds, have rows NUM_FEATURES wide, and weights of at least 1 |
| Predict.Stacked | predict_season_main.py:132-138 | no rows raise the empty-stack error; a stacked set is the gathered examples, aligned and non-empty |
| Predict.StackedExamples | predict_season_main.py:132-138 | stacking raises exactly when no example was gathered, and otherwise passes the examples on |
| Predict.BuildLabelled | predict_season_main.py:106-138 | `build_labelled_examples` returns the stacked `Labelled` examples over the next season's IDs |
| Predict.LabelledExamplesAre | predict_season_main.py:117-131 | the labelled examples are exactly the next-season players on the next roster, in next-season order, each labelled by its `idp_score()` and weighted by its `weight()` (at least 1) |
| Predict.LabelledRowsLaidOut | predict_season_main.py:124-131 | every labelled row has NUM_FEATURES slots in the fixed 8 + 8 + 214 layout |
| Predict.BuildUnlabelled | predict_season_main.py:141-167 | `build_unlabelled_examples` returns the stacked `Unlabelled` examples over the next roster's IDs |
| Predict.Unlabelled | predict_season_main.py:150-166 | one aligned example per roster ID, in order, with label 0, weight 0 and a NUM_FEATURES-wide row starting with the roster's features |
| Predict.UnlabelledExamplesAre | predict_season_main.py:150-166 | one example per next-roster player, in roster order, with label 0, weight 0 and a row in the fixed layout |

## Left out

- File opening and CSV reading (`open`, `csv.DictReader`): a file is the sequence of its rows, each a `map<string, string>`.
- `float()` and `int()` parsing: these are parameters (`FloatParser`, `IntParser`) that give None where Python raises ValueError.
- The wall clock in `from_row`. The ages are the parameter `Clock`. Its `ageOn` covers `strptime` and the days / 365 arithmetic; its `ageSince` covers the `datetime(year, 9, 1)` arithmetic.
- SHA-256 and its hexadecimal reading in `split`: this is the parameter `Hash`, a text-to-natural function.
- Floating-point rounding: sums, products, `fraction * 1000000`, the weight scaling and score / 100 are exact `real` arithmetic. `FloatParser` is any function from text to an optional `real`. It therefore cannot give `nan` or `inf`, and it cannot overflow on text such as "1e400". The only assumption about it is where a lemma requires that "0" reads as 0 (`PlayerSeasons.MissingCountsAddNothing`).
- numpy: rows are `seq<real>`, a matrix is a sequence of rows, and `reshape` is not modelled. `vstack` of an empty list is the `EmptyStack` error.
- `ridge_param_search`, `main`, `lombardotron.py` and `statvalues.py`. These are model fitting, output writing, a debugging script and duplicate constant tables.
- Examples.Merge: does not model `vstack` raising when the two feature matrices differ in width. Every matrix the builders produce is NUM_FEATURES wide (`Predict.LabelledRowsLaidOut`, `Predict.UnlabelledExamplesAre`).
- Predict.BuildLabelled: does not model the side effect of calling the previous season's `features()`, which records that player's unseen positions at weight 0. Equally for `Predict.BuildUnlabelled`. `PlayerSeasons.FillKeepsFeatures` proves that the side effect changes no later `features()` or `idp_score()`. It changes only what a later `roles()` would list, and nothing in the pipeline calls `roles()`.
- Seasons.SeasonStats: holds each player's totals as a `PlayerSeasons.Totals` value, not as a `PlayerSeason` object. So `get_player_stats` returns a copy rather than the shared object, and the aliasing between the two is not modelled.
- `idp_score()` reads the stats defaultdict, which inserts zero totals for scoring columns never recorded. Those entries are not modelled. Nothing enumerates `_stats`, and a zero entry reads the same as a missing one.
- Catalogue-generic operations: the stat loop and the season loaders take the list of stat columns as a parameter (`AddRowOver`, `LoadRowOver`, `AddFileOver`). The catalogue itself is passed by `AddRowSpec`, `AddRow`, `LoadRowInPlace`, `AddFile` and `SeasonStats.Load`.

## Findings

| source | as written | input that shows it | evidently intended | confidence | as-written member | corrected member |
|---|---|---|---|---|---|---|
| predict_season_main.py:36-38 | the third check compares the IDs with the feature rows, but its message reports `len(self.labels)` | one ID, one label, one weight and a feature matrix with 0 rows: the message says "len(pids) is 1 but len(labels) is 1" | report the number of feature rows, `features.shape[0]` | high (not executed) | Examples.MisreportedRowCount | Examples.NewExamples |
