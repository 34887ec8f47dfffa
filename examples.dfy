/** The labelled examples a regression is fitted on: one player ID, one
    feature row, one label and one sample weight per example.

    `split` divides a set of examples into two by a salted hash of each
    player ID, and `merge` puts two sets together. The hash (SHA-256 of the
    UTF-8 text, read as a hexadecimal integer) is a parameter. */
module Examples {
  import opened Results

  /** The modulus `split` reduces each hash code by. */
  const BIG_NUMBER: nat := 1000000

  /** The SHA-256 hash code of a text, as a non-negative integer. */
  type Hash = string -> nat

  datatype LabelledExamples = LabelledExamples(
    pids: seq<string>,
    features: seq<seq<real>>,
    labels: seq<real>,
    weights: seq<real>)
  {
    /** As many labels, weights and feature rows as player IDs. */
    predicate Aligned() {
      |labels| == |pids| && |weights| == |pids| && |features| == |pids|
    }
  }

  // ----- construction: __post_init__ -----

  /** The length of the column a shape error names. */
  function Count(column: string, features: seq<seq<real>>, labels: seq<real>, weights: seq<real>): nat {
    match column
    case "labels" => |labels|
    case "weights" => |weights|
    case _ => |features|
  }

  /** `LabelledExamples(...)` as the source writes it: the labels, then the
      weights, then the feature rows are counted against the IDs, but the
      third check's message reports the number of labels, not of rows. */
  function NewExamplesAsWritten(pids: seq<string>, features: seq<seq<real>>, labels: seq<real>, weights: seq<real>): (r: Result<LabelledExamples>)
    ensures r.Ok? <==> |labels| == |pids| && |weights| == |pids| && |features| == |pids|
    ensures r.Ok? ==> r.value == LabelledExamples(pids, features, labels, weights)
  {
    if |pids| != |labels| then Err(ShapeMismatch("labels", |pids|, |labels|))
    else if |pids| != |weights| then Err(ShapeMismatch("weights", |pids|, |weights|))
    else if |pids| != |features| then Err(ShapeMismatch("labels", |pids|, |labels|))
    else Ok(LabelledExamples(pids, features, labels, weights))
  }

  /** When only the feature rows are miscounted, the source's message names
      two equal counts, so it reports a mismatch it does not show. */
  lemma MisreportedRowCount(pids: seq<string>, features: seq<seq<real>>, labels: seq<real>, weights: seq<real>)
    requires |labels| == |pids| && |weights| == |pids| && |features| != |pids|
    ensures NewExamplesAsWritten(pids, features, labels, weights).Err?
    ensures var e := NewExamplesAsWritten(pids, features, labels, weights).error;
      e.pids == e.reported && e.reported != |features|
  {
  }

  /** The correction changes only the third message: both versions accept the
      same inputs and build the same examples, and they differ only where the
      feature rows alone are miscounted. */
  lemma CorrectionOnlyRewordsMessage(pids: seq<string>, features: seq<seq<real>>, labels: seq<real>, weights: seq<real>)
    ensures NewExamples(pids, features, labels, weights).Ok? <==> NewExamplesAsWritten(pids, features, labels, weights).Ok?
    ensures |features| == |pids| ==> NewExamples(pids, features, labels, weights) == NewExamplesAsWritten(pids, features, labels, weights)
    ensures NewExamples(pids, features, labels, weights) != NewExamplesAsWritten(pids, features, labels, weights) ==>
      |labels| == |pids| && |weights| == |pids| && |features| != |pids|
  {
  }

  /** One ID, one label and one weight but no feature row: the source raises
      "len(pids) is 1 but len(labels) is 1"; the corrected check reports the
      0 rows. */
  lemma OneIdNoRows()
    ensures NewExamplesAsWritten(["p"], [], [1.0], [1.0]) == Err(ShapeMismatch("labels", 1, 1))
    ensures NewExamples(["p"], [], [1.0], [1.0]) == Err(ShapeMismatch("features", 1, 0))
  {
  }

  /** `LabelledExamples(...)` with the third message corrected: every count
      is checked against the IDs, in the source's order, and an error names
      the first column that disagrees together with its real length. */
  function NewExamples(pids: seq<string>, features: seq<seq<real>>, labels: seq<real>, weights: seq<real>): (r: Result<LabelledExamples>)
    ensures r.Ok? <==> |labels| == |pids| && |weights| == |pids| && |features| == |pids|
    ensures r.Ok? ==> r.value == LabelledExamples(pids, features, labels, weights) && r.value.Aligned()
    ensures r.Err? ==> && r.error.ShapeMismatch?
                       && r.error.other in ["labels", "weights", "features"]
                       && r.error.pids == |pids|
                       && r.error.reported == Count(r.error.other, features, labels, weights)
                       && r.error.reported != |pids|
    ensures |labels| != |pids| ==> r == Err(ShapeMismatch("labels", |pids|, |labels|))
    ensures |labels| == |pids| && |weights| != |pids| ==> r == Err(ShapeMismatch("weights", |pids|, |weights|))
  {
    if |pids| != |labels| then Err(ShapeMismatch("labels", |pids|, |labels|))
    else if |pids| != |weights| then Err(ShapeMismatch("weights", |pids|, |weights|))
    else if |pids| != |features| then Err(ShapeMismatch("features", |pids|, |features|))
    else Ok(LabelledExamples(pids, features, labels, weights))
  }

  // ----- split -----

  /** The test of `split`: the example goes left when the hash code of
      `salt + pid`, reduced modulo BIG_NUMBER, is at most `fraction` of
      BIG_NUMBER. */
  predicate GoesLeft(pid: string, salt: string, fraction: real, hash: Hash): (b: bool)
    ensures fraction >= 1.0 ==> b
    ensures fraction < 0.0 ==> !b
  {
    (hash(salt + pid) % BIG_NUMBER) as real <= fraction * (BIG_NUMBER as real)
  }

  /** The positions, in order, of the IDs that go to the side `left`. */
  function SideIndices(pids: seq<string>, left: bool, salt: string, fraction: real, hash: Hash): (idx: seq<nat>)
    ensures forall k :: 0 <= k < |idx| ==> idx[k] < |pids|
  {
    if pids == [] then []
    else
      var rest := SideIndices(pids[..|pids| - 1], left, salt, fraction, hash);
      if GoesLeft(pids[|pids| - 1], salt, fraction, hash) == left then rest + [|pids| - 1] else rest
  }

  /** The entries of `s` at the positions `idx`, in the order of `idx`
      (numpy's `array[idx, :]` on rows). */
  function Rows<T>(s: seq<T>, idx: seq<nat>): (r: seq<T>)
    requires forall k :: 0 <= k < |idx| ==> idx[k] < |s|
  {
    seq(|idx|, k requires 0 <= k < |idx| => s[idx[k]])
  }

  /** The examples at the positions `idx`, each ID kept with its own row,
      label and weight. */
  function Pick(ex: LabelledExamples, idx: seq<nat>): LabelledExamples
    requires ex.Aligned()
    requires forall k :: 0 <= k < |idx| ==> idx[k] < |ex.pids|
  {
    LabelledExamples(Rows(ex.pids, idx), Rows(ex.features, idx), Rows(ex.labels, idx), Rows(ex.weights, idx))
  }

  /** The two halves `split` returns. */
  function SplitOf(ex: LabelledExamples, salt: string := "", fraction: real := 0.8, hash: Hash): (r: (LabelledExamples, LabelledExamples))
    requires ex.Aligned()
    ensures r.0.Aligned() && r.1.Aligned()
    ensures |r.0.pids| + |r.1.pids| == |ex.pids|
    ensures forall i :: 0 <= i < |r.0.pids| ==> GoesLeft(r.0.pids[i], salt, fraction, hash)
    ensures forall i :: 0 <= i < |r.1.pids| ==> !GoesLeft(r.1.pids[i], salt, fraction, hash)
  {
    SideSizes(ex.pids, salt, fraction, hash);
    SideIndicesMembers(ex.pids, true, salt, fraction, hash);
    SideIndicesMembers(ex.pids, false, salt, fraction, hash);
    (Pick(ex, SideIndices(ex.pids, true, salt, fraction, hash)),
     Pick(ex, SideIndices(ex.pids, false, salt, fraction, hash)))
  }

  /** `split(salt, fraction)`: the examples, in order, are appended to the
      left or to the right lists by the hash test; the feature rows are then
      gathered by the positions recorded. */
  method Split(ex: LabelledExamples, salt: string := "", fraction: real := 0.8, hash: Hash) returns (left: LabelledExamples, right: LabelledExamples)
    requires ex.Aligned()
    ensures (left, right) == SplitOf(ex, salt, fraction, hash)
  {
    var leftp, leftf, leftl, leftw := [], [], [], [];
    var rightp, rightf, rightl, rightw := [], [], [], [];
    var i := 0;
    while i < |ex.pids|
      invariant 0 <= i <= |ex.pids|
      invariant leftf == SideIndices(ex.pids[..i], true, salt, fraction, hash)
      invariant rightf == SideIndices(ex.pids[..i], false, salt, fraction, hash)
      invariant forall k :: 0 <= k < |leftf| ==> leftf[k] < i
      invariant forall k :: 0 <= k < |rightf| ==> rightf[k] < i
      invariant leftp == Rows(ex.pids, leftf) && leftl == Rows(ex.labels, leftf) && leftw == Rows(ex.weights, leftf)
      invariant rightp == Rows(ex.pids, rightf) && rightl == Rows(ex.labels, rightf) && rightw == Rows(ex.weights, rightf)
    {
      var pid := ex.pids[i];
      assert ex.pids[..i + 1][..i] == ex.pids[..i];
      if GoesLeft(pid, salt, fraction, hash) {
        RowsSnoc(ex.pids, leftf, i);
        RowsSnoc(ex.labels, leftf, i);
        RowsSnoc(ex.weights, leftf, i);
        leftp, leftf, leftl, leftw := leftp + [pid], leftf + [i], leftl + [ex.labels[i]], leftw + [ex.weights[i]];
      } else {
        RowsSnoc(ex.pids, rightf, i);
        RowsSnoc(ex.labels, rightf, i);
        RowsSnoc(ex.weights, rightf, i);
        rightp, rightf, rightl, rightw := rightp + [pid], rightf + [i], rightl + [ex.labels[i]], rightw + [ex.weights[i]];
      }
      i := i + 1;
    }
    assert ex.pids[..i] == ex.pids;
    left := LabelledExamples(leftp, Rows(ex.features, leftf), leftl, leftw);
    right := LabelledExamples(rightp, Rows(ex.features, rightf), rightl, rightw);
  }

  /** Gathering one more position appends that entry. */
  lemma RowsSnoc<T>(s: seq<T>, idx: seq<nat>, i: nat)
    requires forall k :: 0 <= k < |idx| ==> idx[k] < |s|
    requires i < |s|
    ensures Rows(s, idx + [i]) == Rows(s, idx) + [s[i]]
  {
  }

  /** A position is on the side `left` exactly when its ID passes the hash
      test that way; the positions on a side are in increasing order. */
  lemma {:induction false} SideIndicesMembers(pids: seq<string>, left: bool, salt: string, fraction: real, hash: Hash)
    ensures var idx := SideIndices(pids, left, salt, fraction, hash);
      && (forall i: int :: i in idx <==> 0 <= i < |pids| && GoesLeft(pids[i], salt, fraction, hash) == left)
      && (forall j, k :: 0 <= j < k < |idx| ==> idx[j] < idx[k])
    decreases |pids|
  {
    if pids != [] {
      var init := pids[..|pids| - 1];
      SideIndicesMembers(init, left, salt, fraction, hash);
      assert forall i :: 0 <= i < |init| ==> init[i] == pids[i];
    }
  }

  /** The two sides' positions together are as many as the examples. */
  lemma {:induction false} SideSizes(pids: seq<string>, salt: string, fraction: real, hash: Hash)
    ensures |SideIndices(pids, true, salt, fraction, hash)| + |SideIndices(pids, false, salt, fraction, hash)| == |pids|
    decreases |pids|
  {
    if pids != [] {
      SideSizes(pids[..|pids| - 1], salt, fraction, hash);
    }
  }

  /** `split` sends each example to exactly one side, keeps the examples'
      relative order on each side, and keeps each ID with its own feature
      row, label and weight; both sides pass `__post_init__`. */
  lemma SplitPartitions(ex: LabelledExamples, salt: string, fraction: real, hash: Hash)
    requires ex.Aligned()
    ensures var (left, right) := SplitOf(ex, salt, fraction, hash);
      var l, r := SideIndices(ex.pids, true, salt, fraction, hash), SideIndices(ex.pids, false, salt, fraction, hash);
      && |left.pids| + |right.pids| == |ex.pids|
      && (forall i :: 0 <= i < |ex.pids| ==> (i in l <==> i !in r))
      && (forall j, k :: 0 <= j < k < |l| ==> l[j] < l[k])
      && (forall j, k :: 0 <= j < k < |r| ==> r[j] < r[k])
      && (forall k :: 0 <= k < |l| ==>
            && left.pids[k] == ex.pids[l[k]] && left.features[k] == ex.features[l[k]]
            && left.labels[k] == ex.labels[l[k]] && left.weights[k] == ex.weights[l[k]])
      && (forall k :: 0 <= k < |r| ==>
            && right.pids[k] == ex.pids[r[k]] && right.features[k] == ex.features[r[k]]
            && right.labels[k] == ex.labels[r[k]] && right.weights[k] == ex.weights[r[k]])
      && NewExamples(left.pids, left.features, left.labels, left.weights) == Ok(left)
      && NewExamples(right.pids, right.features, right.labels, right.weights) == Ok(right)
  {
    SideIndicesMembers(ex.pids, true, salt, fraction, hash);
    SideIndicesMembers(ex.pids, false, salt, fraction, hash);
    SideSizes(ex.pids, salt, fraction, hash);
  }

  /** The side depends on the ID alone: every ID on the left passes the hash
      test, every ID on the right fails it, every passing ID of the input is
      on the left, and so no ID is on both sides. */
  lemma SplitBySaltedId(ex: LabelledExamples, salt: string, fraction: real, hash: Hash)
    requires ex.Aligned()
    ensures var (left, right) := SplitOf(ex, salt, fraction, hash);
      && (forall pid :: pid in left.pids ==> GoesLeft(pid, salt, fraction, hash))
      && (forall pid :: pid in right.pids ==> !GoesLeft(pid, salt, fraction, hash))
      && (forall pid :: pid in ex.pids ==> (pid in left.pids <==> GoesLeft(pid, salt, fraction, hash)))
      && (forall pid :: pid in ex.pids ==> (pid in right.pids <==> !GoesLeft(pid, salt, fraction, hash)))
      && (forall pid :: !(pid in left.pids && pid in right.pids))
  {
    var (left, right) := SplitOf(ex, salt, fraction, hash);
    var l, r := SideIndices(ex.pids, true, salt, fraction, hash), SideIndices(ex.pids, false, salt, fraction, hash);
    SideIndicesMembers(ex.pids, true, salt, fraction, hash);
    SideIndicesMembers(ex.pids, false, salt, fraction, hash);
    forall pid | pid in left.pids ensures GoesLeft(pid, salt, fraction, hash) {
      var k :| 0 <= k < |left.pids| && left.pids[k] == pid;
      assert l[k] in l;
    }
    forall pid | pid in right.pids ensures !GoesLeft(pid, salt, fraction, hash) {
      var k :| 0 <= k < |right.pids| && right.pids[k] == pid;
      assert r[k] in r;
    }
    forall pid | pid in ex.pids
      ensures pid in left.pids <==> GoesLeft(pid, salt, fraction, hash)
      ensures pid in right.pids <==> !GoesLeft(pid, salt, fraction, hash)
    {
      var i :| 0 <= i < |ex.pids| && ex.pids[i] == pid;
      if GoesLeft(pid, salt, fraction, hash) {
        var k :| 0 <= k < |l| && l[k] == i;
        assert left.pids[k] == pid;
      } else {
        var k :| 0 <= k < |r| && r[k] == i;
        assert right.pids[k] == pid;
      }
    }
  }

  /** Whatever column is gathered, the two sides hold between them exactly
      the column's entries. */
  lemma {:induction false} SidesCover<T>(s: seq<T>, pids: seq<string>, salt: string, fraction: real, hash: Hash)
    requires |s| == |pids|
    ensures multiset(Rows(s, SideIndices(pids, true, salt, fraction, hash)))
          + multiset(Rows(s, SideIndices(pids, false, salt, fraction, hash))) == multiset(s)
    decreases |pids|
  {
    if pids != [] {
      var n := |pids| - 1;
      var init := pids[..n];
      SidesCover(s[..n], init, salt, fraction, hash);
      var l, r := SideIndices(init, true, salt, fraction, hash), SideIndices(init, false, salt, fraction, hash);
      RowsPrefix(s, l, n);
      RowsPrefix(s, r, n);
      assert s == s[..n] + [s[n]];
      if GoesLeft(pids[n], salt, fraction, hash) {
        RowsSnoc(s, l, n);
      } else {
        RowsSnoc(s, r, n);
      }
    }
  }

  /** Positions below `n` gather the same entries from a prefix of length `n`. */
  lemma RowsPrefix<T>(s: seq<T>, idx: seq<nat>, n: nat)
    requires n <= |s|
    requires forall k :: 0 <= k < |idx| ==> idx[k] < n
    ensures Rows(s, idx) == Rows(s[..n], idx)
  {
  }

  // ----- merge -----

  /** Each weight multiplied by `scale`. */
  function Scaled(weights: seq<real>, scale: real): (r: seq<real>)
    ensures |r| == |weights|
    ensures forall i :: 0 <= i < |weights| ==> r[i] == scale * weights[i]
  {
    seq(|weights|, i requires 0 <= i < |weights| => scale * weights[i])
  }

  /** `merge(first, second, second_weight_scale)` */
  function Merge(first: LabelledExamples, second: LabelledExamples, scale: real): (m: LabelledExamples)
    ensures first.Aligned() && second.Aligned() ==> m.Aligned()
    ensures |m.pids| == |first.pids| + |second.pids|
    ensures |m.weights| == |first.weights| + |second.weights| && m.weights[..|first.weights|] == first.weights
    ensures forall j :: 0 <= j < |second.weights| ==> m.weights[|first.weights| + j] == scale * second.weights[j]
  {
    LabelledExamples(
      first.pids + second.pids,
      first.features + second.features,
      first.labels + second.labels,
      first.weights + Scaled(second.weights, scale))
  }

  /** The merged set holds the first set's examples unchanged, then the
      second set's with each weight scaled; it passes `__post_init__`. */
  lemma MergeLayout(first: LabelledExamples, second: LabelledExamples, scale: real)
    requires first.Aligned() && second.Aligned()
    ensures var m := Merge(first, second, scale);
      && |m.pids| == |first.pids| + |second.pids|
      && NewExamples(m.pids, m.features, m.labels, m.weights) == Ok(m)
      && (forall i :: 0 <= i < |first.pids| ==>
            && m.pids[i] == first.pids[i] && m.features[i] == first.features[i]
            && m.labels[i] == first.labels[i] && m.weights[i] == first.weights[i])
      && (forall j :: 0 <= j < |second.pids| ==>
            var i := |first.pids| + j;
            && m.pids[i] == second.pids[j] && m.features[i] == second.features[j]
            && m.labels[i] == second.labels[j] && m.weights[i] == scale * second.weights[j])
  {
  }

  /** Merging the two halves of a split back with scale 1 gives the same
      examples, possibly reordered: every column holds the same entries. */
  lemma MergeUndoesSplit(ex: LabelledExamples, salt: string, fraction: real, hash: Hash)
    requires ex.Aligned()
    ensures var (left, right) := SplitOf(ex, salt, fraction, hash);
      var m := Merge(left, right, 1.0);
      && multiset(m.pids) == multiset(ex.pids)
      && multiset(m.features) == multiset(ex.features)
      && multiset(m.labels) == multiset(ex.labels)
      && multiset(m.weights) == multiset(ex.weights)
  {
    var (left, right) := SplitOf(ex, salt, fraction, hash);
    SidesCover(ex.pids, ex.pids, salt, fraction, hash);
    SidesCover(ex.features, ex.pids, salt, fraction, hash);
    SidesCover(ex.labels, ex.pids, salt, fraction, hash);
    SidesCover(ex.weights, ex.pids, salt, fraction, hash);
    assert Scaled(right.weights, 1.0) == right.weights;
  }
}
