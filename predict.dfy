/** Assembling the examples of the season prediction.

    Each example describes one player by three blocks of features: the
    player's Week 1 record on the roster of the season being predicted, the
    record on the previous season's roster, and the previous season's stat
    totals. The labelled examples, for training, take their label and weight
    from the totals of the season being predicted; the unlabelled ones, for
    prediction, carry 0 for both. */
module Predict {
  import opened Results
  import Dicts
  import Catalog
  import opened PlayerSeasons
  import opened WeekOne
  import Seasons
  import opened Examples
  import Sorting

  /** The width of an example row: two Week 1 blocks and a season block. */
  const NUM_FEATURES: nat := 2 * NUM_WEEK_ONE_FEATURES + Catalog.NUM_SEASON_FEATURES

  /** An example row has 8 + 8 + 214 slots. */
  lemma FeatureCount()
    ensures NUM_FEATURES == 230
  {
    Catalog.SeasonFeatureCount();
  }

  /** `numpy.zeros(n)` */
  function Zeros(n: nat): (v: seq<real>)
    ensures |v| == n
    ensures forall i :: 0 <= i < n ==> v[i] == 0.0
  {
    seq(n, i => 0.0)
  }

  /** `v[lo:lo + len(block)] = block`: the slots from `lo` take the block's
      values and every other slot keeps its own. */
  function Assign(v: seq<real>, lo: nat, block: seq<real>): (r: seq<real>)
    requires lo + |block| <= |v|
    ensures |r| == |v|
    ensures forall i :: 0 <= i < |v| ==> r[i] == if lo <= i < lo + |block| then block[i - lo] else v[i]
  {
    v[..lo] + block + v[lo + |block|..]
  }

  /** A season feature vector fills the slots after the two Week 1 blocks. */
  lemma SeasonBlockWidth(t: Totals)
    ensures |FeatureVector(t)| == Catalog.NUM_SEASON_FEATURES
    ensures 2 * NUM_WEEK_ONE_FEATURES + |FeatureVector(t)| == NUM_FEATURES
  {
  }

  /** The row the loops of `build_labelled_examples` and
      `build_unlabelled_examples` fill for `pid`: a zero row, the next
      roster's record in the first block, the previous roster's record (if
      any) in the second, the previous season's features (if any) in the rest. */
  function ExampleRow(prevRoster: Dicts.Dict<WeekOnePlayer>, prevSeason: Dicts.Dict<Totals>, next: WeekOnePlayer, pid: string): (row: seq<real>)
    ensures |row| == NUM_FEATURES
    ensures row[..NUM_WEEK_ONE_FEATURES] == Features(next)
  {
    var nwos := NUM_WEEK_ONE_FEATURES;
    var v := Assign(Zeros(NUM_FEATURES), 0, Features(next));
    var v := if pid in prevRoster.values then Assign(v, nwos, Features(prevRoster.values[pid])) else v;
    if pid in prevSeason.values then
      SeasonBlockWidth(prevSeason.values[pid]);
      Assign(v, 2 * nwos, FeatureVector(prevSeason.values[pid]))
    else v
  }

  /** The previous roster's block of a row: the record's features, or zeros. */
  function RosterBlock(prevRoster: Dicts.Dict<WeekOnePlayer>, pid: string): seq<real> {
    if pid in prevRoster.values then Features(prevRoster.values[pid]) else Zeros(NUM_WEEK_ONE_FEATURES)
  }

  /** The previous season's block of a row: the season features, or zeros. */
  function SeasonBlock(prevSeason: Dicts.Dict<Totals>, pid: string): seq<real> {
    if pid in prevSeason.values then FeatureVector(prevSeason.values[pid]) else Zeros(Catalog.NUM_SEASON_FEATURES)
  }

  /** Every example row is NUM_FEATURES wide: slots 0-7 are the next
      roster's features, slots 8-15 the previous roster's or zeros, and the
      rest the previous season's features or zeros. */
  lemma ExampleRowLayout(prevRoster: Dicts.Dict<WeekOnePlayer>, prevSeason: Dicts.Dict<Totals>, next: WeekOnePlayer, pid: string)
    ensures var row := ExampleRow(prevRoster, prevSeason, next, pid);
      && |row| == NUM_FEATURES
      && row == Features(next) + RosterBlock(prevRoster, pid) + SeasonBlock(prevSeason, pid)
  {
    var roster := if pid in prevRoster.values then Features(prevRoster.values[pid]) else Zeros(NUM_WEEK_ONE_FEATURES);
    var season := if pid in prevSeason.values then FeatureVector(prevSeason.values[pid]) else Zeros(Catalog.NUM_SEASON_FEATURES);
    Catalog.SeasonFeatureCount();
    BlocksAssigned(Features(next), roster, season, pid in prevRoster.values, pid in prevSeason.values);
  }

  /** Assigning the three blocks into a zero row, the last two only when
      present, lays them end to end, with zeros for a block not present. */
  lemma BlocksAssigned(first: seq<real>, second: seq<real>, third: seq<real>, hasSecond: bool, hasThird: bool)
    requires |first| == |second| == NUM_WEEK_ONE_FEATURES && 2 * NUM_WEEK_ONE_FEATURES + |third| == NUM_FEATURES
    requires !hasSecond ==> second == Zeros(NUM_WEEK_ONE_FEATURES)
    requires !hasThird ==> third == Zeros(|third|)
    ensures var nwos := NUM_WEEK_ONE_FEATURES;
      var v1 := Assign(Zeros(NUM_FEATURES), 0, first);
      var v2 := if hasSecond then Assign(v1, nwos, second) else v1;
      var v3 := if hasThird then Assign(v2, 2 * nwos, third) else v2;
      v3 == first + second + third
  {
    var nwos := NUM_WEEK_ONE_FEATURES;
    var v1 := Assign(Zeros(NUM_FEATURES), 0, first);
    var v2 := if hasSecond then Assign(v1, nwos, second) else v1;
    var v3 := if hasThird then Assign(v2, 2 * nwos, third) else v2;
    var whole := first + second + third;
    forall i | 0 <= i < NUM_FEATURES ensures v3[i] == whole[i] {
      if i < nwos {
      } else if i < 2 * nwos {
      } else {
      }
    }
  }

  /** The row of one example, as both build loops fill it: `prevPids` is
      `set(prev_season.player_ids)`. */
  method FillRow(prevRoster: WeekOneLeague, prevSeason: Seasons.SeasonStats, prevPids: seq<string>,
                 next: WeekOnePlayer, pid: string) returns (vi: seq<real>)
    requires prevSeason.Valid()
    requires forall p :: p in prevPids <==> p in prevSeason.players.values
    ensures vi == ExampleRow(prevRoster.players, prevSeason.players, next, pid)
  {
    var nwos := NUM_WEEK_ONE_FEATURES;
    vi := Zeros(NUM_FEATURES);
    vi := Assign(vi, 0, Features(next));
    if pid in prevRoster.players.values {
      vi := Assign(vi, nwos, Features(prevRoster.players.values[pid]));
    }
    if pid in prevPids {
      var prevStats := prevSeason.GetPlayerStats(pid).value;
      SeasonBlockWidth(prevStats);
      vi := Assign(vi, 2 * nwos, FeatureVector(prevStats));
    }
  }

  // ----- build_labelled_examples -----

  /** The IDs of `ids` that the roster holds, in the order of `ids`. */
  function OnRoster(ids: seq<string>, roster: Dicts.Dict<WeekOnePlayer>): (r: seq<string>)
    ensures forall pid :: pid in r <==> pid in ids && pid in roster.values
  {
    if ids == [] then []
    else
      var rest := OnRoster(ids[..|ids| - 1], roster);
      assert forall pid :: pid in ids <==> pid in ids[..|ids| - 1] || pid == ids[|ids| - 1];
      if ids[|ids| - 1] in roster.values then rest + [ids[|ids| - 1]] else rest
  }

  /** What the loop of `build_labelled_examples` has gathered after the IDs
      `ids` of the next season. */
  function Labelled(prevRoster: Dicts.Dict<WeekOnePlayer>, prevSeason: Dicts.Dict<Totals>,
                    nextRoster: Dicts.Dict<WeekOnePlayer>, nextSeason: Dicts.Dict<Totals>, ids: seq<string>): (e: LabelledExamples)
    requires forall k :: 0 <= k < |ids| ==> ids[k] in nextSeason.values
    ensures e.Aligned() && |e.pids| <= |ids|
    ensures forall i :: 0 <= i < |e.pids| ==> e.pids[i] in ids && e.pids[i] in nextRoster.values
    ensures forall i :: 0 <= i < |e.features| ==> |e.features[i]| == NUM_FEATURES
    ensures forall i :: 0 <= i < |e.weights| ==> e.weights[i] >= 1.0
  {
    if ids == [] then LabelledExamples([], [], [], [])
    else
      var e := Labelled(prevRoster, prevSeason, nextRoster, nextSeason, ids[..|ids| - 1]);
      var pid := ids[|ids| - 1];
      if pid !in nextRoster.values then e
      else
        var stats := nextSeason.values[pid];
        LabelledExamples(
          e.pids + [pid],
          e.features + [ExampleRow(prevRoster, prevSeason, nextRoster.values[pid], pid)],
          e.labels + [Score(stats)],
          e.weights + [TrainingWeight(stats)])
  }

  /** `numpy.vstack` of the rows, then `LabelledExamples(...)`: no rows at
      all cannot be stacked. */
  function Stacked(e: LabelledExamples): (r: Result<LabelledExamples>)
    ensures e.features == [] ==> r == Err(EmptyStack)
    ensures r.Ok? ==> r.value == e && e.Aligned() && e.pids != []
  {
    if e.features == [] then Err(EmptyStack) else NewExamples(e.pids, e.features, e.labels, e.weights)
  }

  /** Stacking fails exactly when no example was gathered, and otherwise
      passes the gathered examples on unchanged. */
  lemma StackedExamples(e: LabelledExamples)
    requires e.Aligned()
    ensures Stacked(e).Err? <==> e.pids == []
    ensures Stacked(e).Err? ==> Stacked(e).error == EmptyStack
    ensures Stacked(e).Ok? ==> Stacked(e).value == e
  {
  }

  /** `build_labelled_examples(prev_roster, prev_season, next_roster, next_season)` */
  method BuildLabelled(prevRoster: WeekOneLeague, prevSeason: Seasons.SeasonStats,
                       nextRoster: WeekOneLeague, nextSeason: Seasons.SeasonStats) returns (r: Result<LabelledExamples>)
    requires prevRoster.Valid() && prevSeason.Valid() && nextRoster.Valid() && nextSeason.Valid()
    ensures r == Stacked(Labelled(prevRoster.players, prevSeason.players, nextRoster.players, nextSeason.players, nextSeason.players.keys))
  {
    var pids: seq<string> := [];
    var features: seq<seq<real>> := [];
    var labels: seq<real> := [];
    var weights: seq<real> := [];
    var prevPids := prevSeason.PlayerIds();
    var ids := nextSeason.PlayerIds();
    var i := 0;
    while i < |ids|
      invariant 0 <= i <= |ids|
      invariant LabelledExamples(pids, features, labels, weights)
             == Labelled(prevRoster.players, prevSeason.players, nextRoster.players, nextSeason.players, ids[..i])
    {
      var pid := ids[i];
      assert ids[..i + 1][..i] == ids[..i];
      if pid in nextRoster.players.values {
        pids := pids + [pid];
        var nextStats := nextSeason.GetPlayerStats(pid).value;
        labels := labels + [Score(nextStats)];
        weights := weights + [TrainingWeight(nextStats)];
        var vi := FillRow(prevRoster, prevSeason, prevPids, nextRoster.players.values[pid], pid);
        features := features + [vi];
      }
      i := i + 1;
    }
    assert ids[..i] == ids;
    if features == [] {
      return Err(EmptyStack);
    }
    r := NewExamples(pids, features, labels, weights);
  }

  /** The labelled examples are exactly the next season's players that are
      on the next roster, in the next season's order; each is labelled with
      its next-season score, weighted by its next-season training weight
      (never below 1), and described by its example row. */
  lemma {:induction false} LabelledExamplesAre(prevRoster: Dicts.Dict<WeekOnePlayer>, prevSeason: Dicts.Dict<Totals>,
                                               nextRoster: Dicts.Dict<WeekOnePlayer>, nextSeason: Dicts.Dict<Totals>, ids: seq<string>)
    requires forall k :: 0 <= k < |ids| ==> ids[k] in nextSeason.values
    ensures var e := Labelled(prevRoster, prevSeason, nextRoster, nextSeason, ids);
      && e.Aligned()
      && e.pids == OnRoster(ids, nextRoster)
      && (forall k :: 0 <= k < |e.pids| ==>
            && e.pids[k] in nextRoster.values && e.pids[k] in nextSeason.values
            && e.labels[k] == Score(nextSeason.values[e.pids[k]])
            && e.weights[k] == TrainingWeight(nextSeason.values[e.pids[k]])
            && e.weights[k] >= 1.0
            && e.features[k] == ExampleRow(prevRoster, prevSeason, nextRoster.values[e.pids[k]], e.pids[k]))
    decreases |ids|
  {
    if ids != [] {
      var init := ids[..|ids| - 1];
      LabelledExamplesAre(prevRoster, prevSeason, nextRoster, nextSeason, init);
      var pid := ids[|ids| - 1];
      if pid in nextRoster.values {
        TrainingWeightBounds(nextSeason.values[pid]);
      }
    }
  }

  /** Every labelled row has NUM_FEATURES slots: the next roster's features,
      the previous roster's or zeros, the previous season's or zeros. */
  lemma LabelledRowsLaidOut(prevRoster: Dicts.Dict<WeekOnePlayer>, prevSeason: Dicts.Dict<Totals>,
                            nextRoster: Dicts.Dict<WeekOnePlayer>, nextSeason: Dicts.Dict<Totals>, ids: seq<string>)
    requires forall k :: 0 <= k < |ids| ==> ids[k] in nextSeason.values
    ensures var e := Labelled(prevRoster, prevSeason, nextRoster, nextSeason, ids);
      && e.Aligned()
      && forall k :: 0 <= k < |e.pids| ==>
        && e.pids[k] in nextRoster.values
        && |e.features[k]| == NUM_FEATURES
        && e.features[k] == Features(nextRoster.values[e.pids[k]]) + RosterBlock(prevRoster, e.pids[k]) + SeasonBlock(prevSeason, e.pids[k])
  {
    var e := Labelled(prevRoster, prevSeason, nextRoster, nextSeason, ids);
    LabelledExamplesAre(prevRoster, prevSeason, nextRoster, nextSeason, ids);
    forall k | 0 <= k < |e.pids|
      ensures |e.features[k]| == NUM_FEATURES
      ensures e.features[k] == Features(nextRoster.values[e.pids[k]]) + RosterBlock(prevRoster, e.pids[k]) + SeasonBlock(prevSeason, e.pids[k])
    {
      ExampleRowLayout(prevRoster, prevSeason, nextRoster.values[e.pids[k]], e.pids[k]);
    }
  }

  /** The next season lists each player once, so each labelled player
      appears once. */
  lemma {:induction false} OnRosterDistinct(ids: seq<string>, roster: Dicts.Dict<WeekOnePlayer>)
    requires Sorting.Distinct(ids)
    ensures Sorting.Distinct(OnRoster(ids, roster))
    decreases |ids|
  {
    if ids != [] {
      var init := ids[..|ids| - 1];
      assert Sorting.Distinct(init);
      OnRosterDistinct(init, roster);
      assert ids[|ids| - 1] !in init;
    }
  }

  // ----- build_unlabelled_examples -----

  /** The examples `build_unlabelled_examples` gathers for the roster IDs
      `ids`: one row per ID, and 0 for every label and weight. */
  function Unlabelled(prevRoster: Dicts.Dict<WeekOnePlayer>, prevSeason: Dicts.Dict<Totals>,
                      nextRoster: Dicts.Dict<WeekOnePlayer>, ids: seq<string>): (e: LabelledExamples)
    requires forall k :: 0 <= k < |ids| ==> ids[k] in nextRoster.values
    ensures e.Aligned() && e.pids == ids
    ensures forall k :: 0 <= k < |ids| ==> e.labels[k] == 0.0 && e.weights[k] == 0.0
    ensures forall k :: 0 <= k < |ids| ==>
      |e.features[k]| == NUM_FEATURES && e.features[k][..NUM_WEEK_ONE_FEATURES] == Features(nextRoster.values[ids[k]])
  {
    LabelledExamples(
      ids,
      seq(|ids|, k requires 0 <= k < |ids| => ExampleRow(prevRoster, prevSeason, nextRoster.values[ids[k]], ids[k])),
      Zeros(|ids|),
      Zeros(|ids|))
  }

  /** `build_unlabelled_examples(prev_roster, prev_season, next_roster)` */
  method BuildUnlabelled(prevRoster: WeekOneLeague, prevSeason: Seasons.SeasonStats,
                         nextRoster: WeekOneLeague) returns (r: Result<LabelledExamples>)
    requires prevRoster.Valid() && prevSeason.Valid() && nextRoster.Valid()
    ensures r == Stacked(Unlabelled(prevRoster.players, prevSeason.players, nextRoster.players, nextRoster.players.keys))
  {
    var pids: seq<string> := [];
    var features: seq<seq<real>> := [];
    var prevPids := prevSeason.PlayerIds();
    var ids := nextRoster.players.keys;
    var i := 0;
    while i < |ids|
      invariant 0 <= i <= |ids|
      invariant pids == ids[..i]
      invariant features == Unlabelled(prevRoster.players, prevSeason.players, nextRoster.players, ids[..i]).features
    {
      var pid := ids[i];
      pids := pids + [pid];
      var vi := FillRow(prevRoster, prevSeason, prevPids, nextRoster.players.values[pid], pid);
      features := features + [vi];
      i := i + 1;
      UnlabelledRowsSnoc(prevRoster.players, prevSeason.players, nextRoster.players, ids, i);
    }
    assert ids[..i] == ids;
    if features == [] {
      return Err(EmptyStack);
    }
    r := NewExamples(pids, features, Zeros(|pids|), Zeros(|pids|));
  }

  /** One more roster ID adds its row. */
  lemma UnlabelledRowsSnoc(prevRoster: Dicts.Dict<WeekOnePlayer>, prevSeason: Dicts.Dict<Totals>,
                           nextRoster: Dicts.Dict<WeekOnePlayer>, ids: seq<string>, i: nat)
    requires 0 < i <= |ids|
    requires forall k :: 0 <= k < |ids| ==> ids[k] in nextRoster.values
    ensures Unlabelled(prevRoster, prevSeason, nextRoster, ids[..i]).features
         == Unlabelled(prevRoster, prevSeason, nextRoster, ids[..i - 1]).features
            + [ExampleRow(prevRoster, prevSeason, nextRoster.values[ids[i - 1]], ids[i - 1])]
  {
  }

  /** One unlabelled example per player of the next roster, in the roster's
      order, each with label 0 and weight 0 and a row of NUM_FEATURES slots
      laid out as the next roster's features, the previous roster's or
      zeros, and the previous season's or zeros. */
  lemma UnlabelledExamplesAre(prevRoster: Dicts.Dict<WeekOnePlayer>, prevSeason: Dicts.Dict<Totals>,
                              nextRoster: Dicts.Dict<WeekOnePlayer>, ids: seq<string>)
    requires forall k :: 0 <= k < |ids| ==> ids[k] in nextRoster.values
    ensures var e := Unlabelled(prevRoster, prevSeason, nextRoster, ids);
      && e.Aligned()
      && e.pids == ids
      && (forall k :: 0 <= k < |ids| ==>
            && e.labels[k] == 0.0 && e.weights[k] == 0.0
            && |e.features[k]| == NUM_FEATURES
            && e.features[k] == Features(nextRoster.values[ids[k]]) + RosterBlock(prevRoster, ids[k]) + SeasonBlock(prevSeason, ids[k]))
  {
    forall k | 0 <= k < |ids|
      ensures var row := ExampleRow(prevRoster, prevSeason, nextRoster.values[ids[k]], ids[k]);
        |row| == NUM_FEATURES && row == Features(nextRoster.values[ids[k]]) + RosterBlock(prevRoster, ids[k]) + SeasonBlock(prevSeason, ids[k])
    {
      ExampleRowLayout(prevRoster, prevSeason, nextRoster.values[ids[k]], ids[k]);
    }
  }
}
