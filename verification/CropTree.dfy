/** The CART builder of the crop classifier (agri/crop.py). */
module CropTree {
  import opened Wrappers
  import opened Gini
  import opened Sums

  /** One training row with its encoded label. */
  datatype Sample = Sample(row: map<string, real>, target: nat)

  datatype Tree =
    | Leaf(distribution: seq<real>)
    | Node(feature: string, threshold: real, left: Tree, right: Tree)

  datatype Split = Split(gain: real, feature: string, threshold: real)

  /** The knobs `fit_random_forest` fixes once per forest. */
  datatype Params = Params(features: seq<string>, classes: nat, maxDepth: int, minLeaf: int, perSplit: nat)

  /** Every row carries every feature and every label is a class index. */
  ghost predicate WellFormed(samples: seq<Sample>, p: Params) {
    forall i :: 0 <= i < |samples| ==>
      samples[i].target < p.classes && forall f :: f in p.features ==> f in samples[i].row
  }

  // ------------------------------------------------------------------ counting

  function Count(samples: seq<Sample>, c: nat): nat {
    if samples == [] then 0
    else Count(samples[..|samples| - 1], c) + (if samples[|samples| - 1].target == c then 1 else 0)
  }

  function Counts(samples: seq<Sample>, classes: nat): (r: seq<nat>)
    ensures |r| == classes
    ensures forall c :: 0 <= c < classes ==> r[c] == Count(samples, c)
  {
    seq(classes, c requires 0 <= c < classes => Count(samples, c))
  }

  lemma {:induction false} ZeroTotal(counts: seq<nat>)
    requires forall c :: 0 <= c < |counts| ==> counts[c] == 0
    ensures Total(counts) == 0
  {
    if counts != [] {
      ZeroTotal(counts[..|counts| - 1]);
    }
  }

  lemma {:induction false} BumpTotal(counts: seq<nat>, c: nat, bumped: seq<nat>)
    requires c < |counts| && bumped == counts[c := counts[c] + 1]
    ensures Total(bumped) == Total(counts) + 1
  {
    var k := |counts| - 1;
    if c < k {
      BumpTotal(counts[..k], c, bumped[..k]);
    } else {
      assert bumped[..k] == counts[..k];
    }
  }

  /** The class counts of a sample add up to its size. */
  lemma {:induction false} CountsTotal(samples: seq<Sample>, p: Params)
    requires WellFormed(samples, p)
    ensures Total(Counts(samples, p.classes)) == |samples|
  {
    if samples == [] {
      ZeroTotal(Counts(samples, p.classes));
    } else {
      var k := |samples| - 1;
      CountsTotal(samples[..k], p);
      var c := samples[k].target;
      BumpTotal(Counts(samples[..k], p.classes), c, Counts(samples, p.classes));
    }
  }

  /** Leaf distribution: the class frequencies of a non-empty sample. */
  function Frequencies(samples: seq<Sample>, classes: nat): (r: seq<real>)
    requires samples != []
    ensures |r| == classes
    ensures forall c :: 0 <= c < classes ==> r[c] == Share(Count(samples, c), |samples|)
  {
    seq(classes, c requires 0 <= c < classes => Share(Count(samples, c), |samples|))
  }

  method CountLabels(samples: seq<Sample>, p: Params) returns (counts: seq<nat>)
    requires WellFormed(samples, p)
    ensures counts == Counts(samples, p.classes)
  {
    counts := seq(p.classes, _ => 0);
    for i := 0 to |samples|
      invariant counts == Counts(samples[..i], p.classes)
    {
      assert samples[..i + 1][..i] == samples[..i];
      var target := samples[i].target;
      counts := counts[target := counts[target] + 1];
    }
    assert samples[..|samples|] == samples;
  }

  // ------------------------------------------------------------------ splitting

  predicate GoesLeft(row: map<string, real>, feature: string, threshold: real)
    requires feature in row
  {
    row[feature] <= threshold
  }

  ghost predicate Carries(samples: seq<Sample>, feature: string) {
    forall i :: 0 <= i < |samples| ==> feature in samples[i].row
  }

  /** The samples on one side of a split, in order. */
  function Part(samples: seq<Sample>, feature: string, threshold: real, left: bool): (r: seq<Sample>)
    requires Carries(samples, feature)
    ensures |r| <= |samples|
  {
    if samples == [] then []
    else
      var k := |samples| - 1;
      var rest := Part(samples[..k], feature, threshold, left);
      if GoesLeft(samples[k].row, feature, threshold) == left then rest + [samples[k]] else rest
  }

  lemma {:induction false} PartMembers(samples: seq<Sample>, feature: string, threshold: real, left: bool, s: Sample)
    requires Carries(samples, feature)
    ensures s in Part(samples, feature, threshold, left)
       <==> s in samples && GoesLeft(s.row, feature, threshold) == left
  {
    if samples != [] {
      var k := |samples| - 1;
      PartMembers(samples[..k], feature, threshold, left, s);
      assert samples == samples[..k] + [samples[k]];
    }
  }

  lemma PartWellFormed(samples: seq<Sample>, p: Params, feature: string, threshold: real, left: bool)
    requires WellFormed(samples, p) && Carries(samples, feature)
    ensures WellFormed(Part(samples, feature, threshold, left), p)
  {
    var part := Part(samples, feature, threshold, left);
    forall i | 0 <= i < |part|
      ensures part[i] in samples
    {
      PartMembers(samples, feature, threshold, left, part[i]);
    }
  }

  lemma {:induction false} PartCounts(samples: seq<Sample>, feature: string, threshold: real, c: nat)
    requires Carries(samples, feature)
    ensures Count(samples, c) == Count(Part(samples, feature, threshold, true), c)
                               + Count(Part(samples, feature, threshold, false), c)
    ensures |samples| == |Part(samples, feature, threshold, true)| + |Part(samples, feature, threshold, false)|
  {
    if samples != [] {
      var k := |samples| - 1;
      PartCounts(samples[..k], feature, threshold, c);
      var left := GoesLeft(samples[k].row, feature, threshold);
      var side := Part(samples, feature, threshold, left);
      assert side[..|side| - 1] == Part(samples[..k], feature, threshold, left);
    }
  }

  /** Both sides keep at least `minLeaf` rows, and neither is empty. */
  predicate Admissible(samples: seq<Sample>, feature: string, threshold: real, minLeaf: int)
    requires Carries(samples, feature)
  {
    var l, r := |Part(samples, feature, threshold, true)|, |Part(samples, feature, threshold, false)|;
    l > 0 && r > 0 && l >= minLeaf && r >= minLeaf
  }

  function SplitGain(samples: seq<Sample>, feature: string, threshold: real, classes: nat): real
    requires Carries(samples, feature)
  {
    var l := Counts(Part(samples, feature, threshold, true), classes);
    var r := Counts(Part(samples, feature, threshold, false), classes);
    if Total(l) + Total(r) == 0 then 0.0 else Gain(Counts(samples, classes), l, r)
  }

  /** No admissible split loses purity; it gains none exactly when both sides show the same frequencies. */
  lemma SplitGainNonNegative(samples: seq<Sample>, p: Params, feature: string, threshold: real)
    requires WellFormed(samples, p) && Carries(samples, feature)
    requires Admissible(samples, feature, threshold, p.minLeaf)
    ensures SplitGain(samples, feature, threshold, p.classes) >= 0.0
    ensures var l, r := Part(samples, feature, threshold, true), Part(samples, feature, threshold, false);
            SplitGain(samples, feature, threshold, p.classes) == 0.0
            <==> Proportional(Counts(l, p.classes), Counts(r, p.classes), |l|, |r|)
  {
    hide Gain, Total, Part, Proportional;
    var l, r := Part(samples, feature, threshold, true), Part(samples, feature, threshold, false);
    PartWellFormed(samples, p, feature, threshold, true);
    PartWellFormed(samples, p, feature, threshold, false);
    CountsTotal(l, p);
    CountsTotal(r, p);
    forall c: nat | c < p.classes
      ensures Count(samples, c) == Count(l, c) + Count(r, c)
    {
      PartCounts(samples, feature, threshold, c);
    }
    var cl, cr := Counts(l, p.classes), Counts(r, p.classes);
    GainNonNegative(Counts(samples, p.classes), cl, cr);
  }

  // ----------------------------------------------------- candidate thresholds

  ghost predicate StrictlyIncreasing(v: seq<real>) {
    forall i, j :: 0 <= i < j < |v| ==> v[i] < v[j]
  }

  /** sorted(set(...)): put x in its place unless it is already there. */
  function InsertDistinct(v: seq<real>, x: real): (r: seq<real>)
    requires StrictlyIncreasing(v)
    ensures StrictlyIncreasing(r)
    ensures forall y :: y in r <==> y == x || y in v
  {
    if v == [] then [x]
    else
      var k := |v| - 1;
      assert v == v[..k] + [v[k]];
      if v[k] < x then v + [x]
      else if v[k] == x then v
      else
        var rest := InsertDistinct(v[..k], x);
        assert forall y :: y in rest ==> y < v[k];
        assert forall i :: 0 <= i < |rest| ==> rest[i] in rest;
        rest + [v[k]]
  }

  function DistinctValues(samples: seq<Sample>, feature: string): (r: seq<real>)
    requires Carries(samples, feature)
    ensures StrictlyIncreasing(r)
  {
    if samples == [] then []
    else
      var k := |samples| - 1;
      InsertDistinct(DistinctValues(samples[..k], feature), samples[k].row[feature])
  }

  lemma {:induction false} ValuePresent(samples: seq<Sample>, feature: string, i: nat)
    requires Carries(samples, feature) && i < |samples|
    ensures samples[i].row[feature] in DistinctValues(samples, feature)
  {
    var k := |samples| - 1;
    if i < k {
      ValuePresent(samples[..k], feature, i);
    }
  }

  lemma {:induction false} ValueSource(samples: seq<Sample>, feature: string, y: real) returns (i: nat)
    requires Carries(samples, feature) && y in DistinctValues(samples, feature)
    ensures i < |samples| && samples[i].row[feature] == y
  {
    var k := |samples| - 1;
    if samples[k].row[feature] == y {
      i := k;
    } else {
      i := ValueSource(samples[..k], feature, y);
    }
  }

  function Midpoint(values: seq<real>, i: nat): real
    requires i + 1 < |values|
  {
    (values[i] + values[i + 1]) / 2.0
  }

  lemma {:induction false} SamePart(samples: seq<Sample>, feature: string, t: real, u: real, left: bool)
    requires Carries(samples, feature)
    requires forall i :: 0 <= i < |samples| ==>
      (GoesLeft(samples[i].row, feature, t) <==> GoesLeft(samples[i].row, feature, u))
    ensures Part(samples, feature, t, left) == Part(samples, feature, u, left)
  {
    if samples != [] {
      SamePart(samples[..|samples| - 1], feature, t, u, left);
    }
  }

  lemma NonEmptyPart(samples: seq<Sample>, feature: string, t: real, left: bool) returns (i: nat)
    requires Carries(samples, feature) && Part(samples, feature, t, left) != []
    ensures i < |samples| && GoesLeft(samples[i].row, feature, t) == left
  {
    var s := Part(samples, feature, t, left)[0];
    PartMembers(samples, feature, t, left, s);
    i :| 0 <= i < |samples| && samples[i] == s;
  }

  /** Any threshold with rows on both sides splits exactly as some candidate midpoint does. */
  lemma SomeMidpoint(samples: seq<Sample>, feature: string, t: real) returns (i: nat)
    requires Carries(samples, feature)
    requires Part(samples, feature, t, true) != [] && Part(samples, feature, t, false) != []
    ensures var values := DistinctValues(samples, feature);
            && i + 1 < |values|
            && forall left :: Part(samples, feature, t, left) == Part(samples, feature, Midpoint(values, i), left)
  {
    hide Part, DistinctValues;
    var values := DistinctValues(samples, feature);
    var a := NonEmptyPart(samples, feature, t, true);
    var b := NonEmptyPart(samples, feature, t, false);
    ValuePresent(samples, feature, a);
    ValuePresent(samples, feature, b);
    var lo :| 0 <= lo < |values| && values[lo] == samples[a].row[feature];
    var hi :| 0 <= hi < |values| && values[hi] == samples[b].row[feature];
    assert values[lo] <= t < values[hi];
    i := lo;
    while values[i + 1] <= t
      invariant lo <= i && i + 1 < |values|
      invariant values[i] <= t
      invariant i < hi
      decreases |values| - i
    {
      i := i + 1;
    }
    var u := Midpoint(values, i);
    forall j | 0 <= j < |samples|
      ensures GoesLeft(samples[j].row, feature, t) <==> GoesLeft(samples[j].row, feature, u)
    {
      ValuePresent(samples, feature, j);
      var k :| 0 <= k < |values| && values[k] == samples[j].row[feature];
      assert if k <= i then values[k] <= values[i] else values[i + 1] <= values[k];
    }
    SamePart(samples, feature, t, u, true);
    SamePart(samples, feature, t, u, false);
  }

  /** A midpoint of two present values has rows on both sides. */
  lemma MidpointSplits(samples: seq<Sample>, feature: string, i: nat)
    requires Carries(samples, feature)
    requires i + 1 < |DistinctValues(samples, feature)|
    ensures var u := Midpoint(DistinctValues(samples, feature), i);
            Part(samples, feature, u, true) != [] && Part(samples, feature, u, false) != []
  {
    var values := DistinctValues(samples, feature);
    var u := Midpoint(values, i);
    assert values[i] in values && values[i + 1] in values;
    var a := ValueSource(samples, feature, values[i]);
    var b := ValueSource(samples, feature, values[i + 1]);
    assert values[i] < values[i + 1];
    PartMembers(samples, feature, u, true, samples[a]);
    PartMembers(samples, feature, u, false, samples[b]);
  }

  // -------------------------------------------------------------- the best split

  /** The split's own record is right: an admissible midpoint with the gain it claims. */
  ghost predicate Genuine(samples: seq<Sample>, p: Params, split: Split) {
    && Carries(samples, split.feature)
    && Admissible(samples, split.feature, split.threshold, p.minLeaf)
    && split.gain == SplitGain(samples, split.feature, split.threshold, p.classes)
    && IsMidpoint(DistinctValues(samples, split.feature), split.threshold)
  }

  ghost predicate IsMidpoint(values: seq<real>, t: real) {
    exists i :: 0 <= i && i + 1 < |values| && t == Midpoint(values, i)
  }

  /** Threshold t on the feature is inadmissible or gains no more than `best`. */
  ghost predicate Covered(samples: seq<Sample>, p: Params, feature: string, t: real, best: Option<Split>)
    requires Carries(samples, feature)
  {
    Admissible(samples, feature, t, p.minLeaf) ==>
      best.Some? && SplitGain(samples, feature, t, p.classes) <= best.value.gain
  }

  /** No real threshold on any candidate feature does better than `best`. */
  ghost predicate Best(samples: seq<Sample>, p: Params, candidates: seq<string>, best: Option<Split>) {
    && (best.Some? ==> best.value.feature in candidates && Genuine(samples, p, best.value))
    && forall f, t | f in candidates && Carries(samples, f) :: Covered(samples, p, f, t, best)
  }

  /** Threshold t on the feature is inadmissible or gains strictly less than the split. */
  ghost predicate Below(samples: seq<Sample>, p: Params, feature: string, t: real, best: Split)
    requires Carries(samples, feature)
  {
    Admissible(samples, feature, t, p.minLeaf) ==> SplitGain(samples, feature, t, p.classes) < best.gain
  }

  ghost predicate AllBelow(samples: seq<Sample>, p: Params, feature: string, best: Split) {
    Carries(samples, feature) ==> forall t :: Below(samples, p, feature, t, best)
  }

  /** The split sits at midpoint i, and every earlier midpoint gains strictly less. */
  ghost predicate AtMidpoint(samples: seq<Sample>, p: Params, best: Split, i: nat)
    requires Carries(samples, best.feature)
  {
    var values := DistinctValues(samples, best.feature);
    && i + 1 < |values| && best.threshold == Midpoint(values, i)
    && forall j :: 0 <= j < i ==> Below(samples, p, best.feature, Midpoint(values, j), best)
  }

  ghost predicate FirstOnFeature(samples: seq<Sample>, p: Params, best: Split) {
    Carries(samples, best.feature) && exists i :: AtMidpoint(samples, p, best, i)
  }

  ghost predicate AtCandidate(samples: seq<Sample>, p: Params, candidates: seq<string>, best: Split, k: nat) {
    && k < |candidates| && candidates[k] == best.feature
    && forall m :: 0 <= m < k ==> AllBelow(samples, p, candidates[m], best)
  }

  /** Among equally good splits, the first: first candidate feature, then first midpoint. */
  ghost predicate FirstBest(samples: seq<Sample>, p: Params, candidates: seq<string>, best: Option<Split>) {
    best.Some? ==> FirstOnFeature(samples, p, best.value) && exists k :: AtCandidate(samples, p, candidates, best.value, k)
  }

  /** An improvement over everything covered so far leaves all of it strictly below. */
  lemma ImprovedBelow(samples: seq<Sample>, p: Params, f: string, t: real, before: Option<Split>, best: Split)
    requires Carries(samples, f) && Covered(samples, p, f, t, before)
    requires before.Some? ==> best.gain > before.value.gain
    ensures Below(samples, p, f, t, best)
  {
  }

  ghost predicate NoWorse(best: Option<Split>, than: Option<Split>) {
    than.Some? ==> best.Some? && than.value.gain <= best.value.gain
  }

  lemma SameSideCovered(samples: seq<Sample>, p: Params, feature: string, t: real, u: real, best: Option<Split>)
    requires Carries(samples, feature)
    requires forall left :: Part(samples, feature, t, left) == Part(samples, feature, u, left)
    requires Covered(samples, p, feature, u, best)
    ensures Covered(samples, p, feature, t, best)
  {
    hide Part, Gain, Total;
    assert Part(samples, feature, t, true) == Part(samples, feature, u, true);
    assert Part(samples, feature, t, false) == Part(samples, feature, u, false);
  }

  method SplitCounts(samples: seq<Sample>, p: Params, feature: string, threshold: real)
    returns (left: seq<nat>, right: seq<nat>)
    requires WellFormed(samples, p) && Carries(samples, feature)
    ensures left == Counts(Part(samples, feature, threshold, true), p.classes)
    ensures right == Counts(Part(samples, feature, threshold, false), p.classes)
  {
    left, right := seq(p.classes, _ => 0), seq(p.classes, _ => 0);
    for i := 0 to |samples|
      invariant left == Counts(Part(samples[..i], feature, threshold, true), p.classes)
      invariant right == Counts(Part(samples[..i], feature, threshold, false), p.classes)
    {
      assert samples[..i + 1][..i] == samples[..i];
      var goesLeft := GoesLeft(samples[i].row, feature, threshold);
      var target := samples[i].target;
      AppendCounts(Part(samples[..i], feature, threshold, goesLeft), samples[i], p.classes);
      if goesLeft {
        left := left[target := left[target] + 1];
      } else {
        right := right[target := right[target] + 1];
      }
    }
    assert samples[..|samples|] == samples;
  }

  lemma AppendCounts(samples: seq<Sample>, s: Sample, classes: nat)
    requires s.target < classes
    ensures var counts := Counts(samples, classes);
            Counts(samples + [s], classes) == counts[s.target := counts[s.target] + 1]
  {
    assert (samples + [s])[..|samples|] == samples;
  }

  /** One candidate feature: every consecutive pair of its distinct values. */
  method ScanFeature(samples: seq<Sample>, p: Params, feature: string, best0: Option<Split>)
    returns (best: Option<Split>)
    requires WellFormed(samples, p) && Carries(samples, feature)
    ensures best == best0 || (best.Some? && best.value.feature == feature && Genuine(samples, p, best.value))
    ensures NoWorse(best, best0)
    ensures best == best0 || (FirstOnFeature(samples, p, best.value) && (best0.Some? ==> best.value.gain > best0.value.gain))
    ensures forall t :: Covered(samples, p, feature, t, best)
  {
    hide Part, Gain, Total, DistinctValues, WellFormed, Impurity;
    best := best0;
    var values := DistinctValues(samples, feature);
    var i := 0;
    while i + 1 < |values|
      invariant best == best0 || (best.Some? && best.value.feature == feature && Genuine(samples, p, best.value))
      invariant NoWorse(best, best0)
      invariant best == best0 || (FirstOnFeature(samples, p, best.value) && (best0.Some? ==> best.value.gain > best0.value.gain))
      invariant forall j :: 0 <= j < i && j + 1 < |values| ==> Covered(samples, p, feature, Midpoint(values, j), best)
    {
      var threshold := Midpoint(values, i);
      MidpointSplits(samples, feature, i);
      var left, right := SplitCounts(samples, p, feature, threshold);
      var leftTotal, rightTotal := Total(left), Total(right);
      PartTotals(samples, p, feature, threshold);
      if leftTotal >= p.minLeaf && rightTotal >= p.minLeaf {
        var gain := Gain(Counts(samples, p.classes), left, right);
        assert IsMidpoint(values, threshold);
        assert gain == SplitGain(samples, feature, threshold, p.classes);
        if best.None? || gain > best.value.gain {
          ghost var before := best;
          best := Some(Split(gain, feature, threshold));
          forall j | 0 <= j < i
            ensures Below(samples, p, feature, Midpoint(values, j), best.value)
          {
            ImprovedBelow(samples, p, feature, Midpoint(values, j), before, best.value);
          }
          assert AtMidpoint(samples, p, best.value, i);
        }
      }
      assert Covered(samples, p, feature, Midpoint(values, i), best);
      i := i + 1;
    }
    forall t
      ensures Covered(samples, p, feature, t, best)
    {
      if Admissible(samples, feature, t, p.minLeaf) {
        var j := SomeMidpoint(samples, feature, t);
        SameSideCovered(samples, p, feature, t, Midpoint(values, j), best);
      }
    }
  }

  lemma PartTotals(samples: seq<Sample>, p: Params, feature: string, threshold: real)
    requires WellFormed(samples, p) && Carries(samples, feature)
    ensures Total(Counts(Part(samples, feature, threshold, true), p.classes)) == |Part(samples, feature, threshold, true)|
    ensures Total(Counts(Part(samples, feature, threshold, false), p.classes)) == |Part(samples, feature, threshold, false)|
  {
    PartWellFormed(samples, p, feature, threshold, true);
    PartWellFormed(samples, p, feature, threshold, false);
    CountsTotal(Part(samples, feature, threshold, true), p);
    CountsTotal(Part(samples, feature, threshold, false), p);
  }

  /** The double loop over candidate features and thresholds finds a best split. */
  method BestSplit(samples: seq<Sample>, p: Params, candidates: seq<string>) returns (best: Option<Split>)
    requires WellFormed(samples, p)
    requires forall f :: f in candidates ==> f in p.features
    ensures Best(samples, p, candidates, best)
    ensures FirstBest(samples, p, candidates, best)
  {
    hide Covered, Genuine, FirstOnFeature, AllBelow;
    best := None;
    for k := 0 to |candidates|
      invariant Best(samples, p, candidates[..k], best)
      invariant FirstBest(samples, p, candidates[..k], best)
    {
      var feature := candidates[k];
      assert Carries(samples, feature);
      var before := best;
      best := ScanFeature(samples, p, feature, before);
      assert candidates[..k + 1] == candidates[..k] + [feature];
      forall f, t | f in candidates[..k + 1] && Carries(samples, f)
        ensures Covered(samples, p, f, t, best)
      {
        if f in candidates[..k] {
          assert Covered(samples, p, f, t, before);
          CoveredByBetter(samples, p, f, t, before, best);
        }
      }
      FirstBestStep(samples, p, candidates, k, before, best);
    }
    assert candidates[..|candidates|] == candidates;
  }

  lemma FirstBestStep(samples: seq<Sample>, p: Params, candidates: seq<string>, k: nat, before: Option<Split>, best: Option<Split>)
    requires k < |candidates| && Carries(samples, candidates[k])
    requires Best(samples, p, candidates[..k], before) && FirstBest(samples, p, candidates[..k], before)
    requires best == before || (best.Some? && best.value.feature == candidates[k] && FirstOnFeature(samples, p, best.value)
                                && (before.Some? ==> best.value.gain > before.value.gain))
    ensures FirstBest(samples, p, candidates[..k + 1], best)
  {
    hide Covered, Genuine, FirstOnFeature, Below;
    var now, next := candidates[..k], candidates[..k + 1];
    if best == before {
      if best.Some? {
        var m :| AtCandidate(samples, p, now, best.value, m);
        assert AtCandidate(samples, p, next, best.value, m);
      }
    } else {
      forall m | 0 <= m < k
        ensures AllBelow(samples, p, next[m], best.value)
      {
        if Carries(samples, next[m]) {
          forall t
            ensures Below(samples, p, next[m], t, best.value)
          {
            assert next[m] == now[m] && now[m] in now;
            ImprovedBelow(samples, p, next[m], t, before, best.value);
          }
        }
      }
      assert AtCandidate(samples, p, next, best.value, k);
    }
  }

  /** So the drawn features determine the split. */
  lemma OneBestSplit(samples: seq<Sample>, p: Params, candidates: seq<string>, a: Split, b: Split)
    requires Picked(samples, p, candidates, a) && Picked(samples, p, candidates, b)
    ensures a == b
  {
    hide Admissible, SplitGain, DistinctValues;
    assert Covered(samples, p, a.feature, a.threshold, Some(b)) && Covered(samples, p, b.feature, b.threshold, Some(a));
    assert a.gain == b.gain;
    var k :| AtCandidate(samples, p, candidates, a, k);
    var m :| AtCandidate(samples, p, candidates, b, m);
    EarlierCandidate(samples, p, candidates, a, b, k, m);
    EarlierCandidate(samples, p, candidates, b, a, m, k);
    var i :| AtMidpoint(samples, p, a, i);
    var j :| AtMidpoint(samples, p, b, j);
    EarlierMidpoint(samples, p, a, b, i, j);
    EarlierMidpoint(samples, p, b, a, j, i);
  }

  lemma EarlierCandidate(samples: seq<Sample>, p: Params, candidates: seq<string>, a: Split, b: Split, k: nat, m: nat)
    requires Genuine(samples, p, a) && a.gain == b.gain
    requires AtCandidate(samples, p, candidates, a, k) && AtCandidate(samples, p, candidates, b, m)
    ensures k >= m
  {
    hide Admissible, SplitGain, DistinctValues;
    assert !Below(samples, p, a.feature, a.threshold, b);
    assert k < m ==> AllBelow(samples, p, candidates[k], b);
  }

  lemma EarlierMidpoint(samples: seq<Sample>, p: Params, a: Split, b: Split, i: nat, j: nat)
    requires Genuine(samples, p, a) && a.gain == b.gain && a.feature == b.feature
    requires AtMidpoint(samples, p, a, i) && AtMidpoint(samples, p, b, j)
    ensures i >= j
  {
    hide Admissible, SplitGain, DistinctValues;
    assert !Below(samples, p, a.feature, a.threshold, b);
  }

  lemma CoveredByBetter(samples: seq<Sample>, p: Params, f: string, t: real, before: Option<Split>, best: Option<Split>)
    requires Carries(samples, f) && Covered(samples, p, f, t, before) && NoWorse(best, before)
    ensures Covered(samples, p, f, t, best)
  {
  }

  // ---------------------------------------------------------------- the builder

  /** rng.sample: a draw without replacement, of `perSplit` features or all of them. */
  ghost predicate Draw(candidates: seq<string>, p: Params) {
    && |candidates| == (if p.perSplit <= |p.features| then p.perSplit else |p.features|)
    && multiset(candidates) <= multiset(p.features)
  }

  /** Too deep, too few rows, or one class only. */
  predicate Stops(samples: seq<Sample>, p: Params, depth: int) {
    depth >= p.maxDepth || |samples| < 2 * p.minLeaf || Present(Counts(samples, p.classes)) == 1
  }

  function Present(counts: seq<nat>): nat {
    if counts == [] then 0
    else Present(counts[..|counts| - 1]) + (if counts[|counts| - 1] > 0 then 1 else 0)
  }

  /** What `_build_tree` may return: the draws are free, everything else is determined. */
  ghost predicate Grown(tree: Tree, samples: seq<Sample>, p: Params, depth: int)
    decreases tree
  {
    && samples != []
    && match tree
       case Leaf(distribution) =>
         && distribution == Frequencies(samples, p.classes)
         && (Stops(samples, p, depth) || exists candidates :: Draw(candidates, p) && Fruitless(samples, p, candidates))
       case Node(f, t, l, r) =>
         && !Stops(samples, p, depth)
         && f in p.features
         && Carries(samples, f)
         && Chosen(samples, p, f, t)
         && Grown(l, Part(samples, f, t, true), p, depth + 1)
         && Grown(r, Part(samples, f, t, false), p, depth + 1)
  }

  /** No candidate split gains anything. */
  ghost predicate Fruitless(samples: seq<Sample>, p: Params, candidates: seq<string>) {
    exists best :: Best(samples, p, candidates, best) && (best.Some? ==> best.value.gain <= 0.0)
  }

  /** The split is best over these candidates, and the first of the equally good ones. */
  ghost predicate Picked(samples: seq<Sample>, p: Params, candidates: seq<string>, split: Split) {
    Best(samples, p, candidates, Some(split)) && FirstBest(samples, p, candidates, Some(split))
  }

  /** (f, t) is the split picked over some draw, and it gains. */
  ghost predicate Chosen(samples: seq<Sample>, p: Params, f: string, t: real)
    requires Carries(samples, f)
  {
    && Admissible(samples, f, t, p.minLeaf)
    && SplitGain(samples, f, t, p.classes) > 0.0
    && exists candidates :: Draw(candidates, p)
         && Picked(samples, p, candidates, Split(SplitGain(samples, f, t, p.classes), f, t))
  }

  method DrawFeatures(p: Params) returns (candidates: seq<string>)
    ensures Draw(candidates, p)
    ensures forall f :: f in candidates ==> f in p.features
  {
    var m := if p.perSplit <= |p.features| then p.perSplit else |p.features|;
    candidates := [];
    var pool := p.features;
    while |candidates| < m
      invariant |candidates| <= m && |candidates| + |pool| == |p.features|
      invariant multiset(candidates) + multiset(pool) == multiset(p.features)
    {
      var i: nat :| i < |pool|;
      assert pool == pool[..i] + [pool[i]] + pool[i + 1..];
      candidates, pool := candidates + [pool[i]], pool[..i] + pool[i + 1..];
    }
    forall f | f in candidates
      ensures f in p.features
    {
      assert multiset(candidates)[f] > 0;
      assert multiset(p.features)[f] > 0;
    }
  }

  method PresentClasses(counts: seq<nat>) returns (n: nat)
    ensures n == Present(counts)
  {
    n := 0;
    for i := 0 to |counts|
      invariant n == Present(counts[..i])
    {
      assert counts[..i + 1][..i] == counts[..i];
      if counts[i] != 0 {
        n := n + 1;
      }
    }
    assert counts[..|counts|] == counts;
  }

  /** The partition loop at the end of `_build_tree`. */
  method Partition(samples: seq<Sample>, feature: string, threshold: real)
    returns (left: seq<Sample>, right: seq<Sample>)
    requires Carries(samples, feature)
    ensures left == Part(samples, feature, threshold, true)
    ensures right == Part(samples, feature, threshold, false)
  {
    left, right := [], [];
    for i := 0 to |samples|
      invariant left == Part(samples[..i], feature, threshold, true)
      invariant right == Part(samples[..i], feature, threshold, false)
    {
      assert samples[..i + 1][..i] == samples[..i];
      if GoesLeft(samples[i].row, feature, threshold) {
        left := left + [samples[i]];
      } else {
        right := right + [samples[i]];
      }
    }
    assert samples[..|samples|] == samples;
  }

  method LeafOf(counts: seq<nat>, samples: seq<Sample>, p: Params) returns (tree: Tree)
    requires WellFormed(samples, p) && samples != [] && counts == Counts(samples, p.classes)
    ensures tree == Leaf(Frequencies(samples, p.classes))
  {
    CountsTotal(samples, p);
    var total := Total(counts);
    tree := Leaf(seq(p.classes, c requires 0 <= c < p.classes => Share(counts[c], total)));
    assert tree.distribution == Frequencies(samples, p.classes);
  }

  method BuildTree(samples: seq<Sample>, p: Params, depth: int) returns (tree: Tree)
    requires WellFormed(samples, p) && samples != []
    ensures Grown(tree, samples, p, depth)
    decreases p.maxDepth - depth
  {
    hide Part, Best, FirstBest, Draw, WellFormed, Frequencies, Admissible, SplitGain, Genuine;
    var counts := CountLabels(samples, p);
    var present := PresentClasses(counts);
    if depth >= p.maxDepth || |samples| < 2 * p.minLeaf || present == 1 {
      tree := LeafOf(counts, samples, p);
      return;
    }
    var candidates := DrawFeatures(p);
    var best := BestSplit(samples, p, candidates);
    if best.None? || best.value.gain <= 0.0 {
      assert Fruitless(samples, p, candidates);
      tree := LeafOf(counts, samples, p);
      return;
    }
    var f, t := best.value.feature, best.value.threshold;
    BestIsChosen(samples, p, candidates, best.value);
    PartWellFormed(samples, p, f, t, true);
    PartWellFormed(samples, p, f, t, false);
    AdmissibleParts(samples, p, f, t);
    var left, right := Partition(samples, f, t);
    var l := BuildTree(left, p, depth + 1);
    var r := BuildTree(right, p, depth + 1);
    tree := Node(f, t, l, r);
  }

  lemma BestIsChosen(samples: seq<Sample>, p: Params, candidates: seq<string>, best: Split)
    requires Draw(candidates, p) && Picked(samples, p, candidates, best) && best.gain > 0.0
    requires forall f :: f in candidates ==> f in p.features
    ensures Carries(samples, best.feature) && Chosen(samples, p, best.feature, best.threshold)
    ensures best.feature in p.features
  {
    hide Admissible, SplitGain, Draw, IsMidpoint, FirstBest;
    assert Genuine(samples, p, best);
    assert Picked(samples, p, candidates,
                  Split(SplitGain(samples, best.feature, best.threshold, p.classes), best.feature, best.threshold));
  }

  lemma AdmissibleParts(samples: seq<Sample>, p: Params, f: string, t: real)
    requires Carries(samples, f) && Admissible(samples, f, t, p.minLeaf)
    ensures Part(samples, f, t, true) != [] && Part(samples, f, t, false) != []
    ensures |Part(samples, f, t, true)| >= p.minLeaf && |Part(samples, f, t, false)| >= p.minLeaf
  {
    hide Part;
  }

  // ------------------------------------------------------------- what trees mean

  ghost predicate Readable(tree: Tree, row: map<string, real>) {
    match tree
    case Leaf(_) => true
    case Node(f, _, l, r) => f in row && Readable(l, row) && Readable(r, row)
  }

  /** The left/right turns a row takes. */
  function Path(tree: Tree, row: map<string, real>): seq<bool>
    requires Readable(tree, row)
  {
    match tree
    case Leaf(_) => []
    case Node(f, t, l, r) =>
      if GoesLeft(row, f, t) then [true] + Path(l, row) else [false] + Path(r, row)
  }

  function Predicted(tree: Tree, row: map<string, real>): seq<real>
    requires Readable(tree, row)
  {
    match tree
    case Leaf(distribution) => distribution
    case Node(f, t, l, r) => if GoesLeft(row, f, t) then Predicted(l, row) else Predicted(r, row)
  }

  method TreePredict(tree: Tree, row: map<string, real>) returns (distribution: seq<real>)
    requires Readable(tree, row)
    ensures distribution == Predicted(tree, row)
  {
    var node := tree;
    while node.Node?
      invariant Readable(node, row)
      invariant Predicted(node, row) == Predicted(tree, row)
      decreases node
    {
      node := if row[node.feature] <= node.threshold then node.left else node.right;
    }
    distribution := node.distribution;
  }

  ghost predicate AllReadable(tree: Tree, samples: seq<Sample>) {
    forall i :: 0 <= i < |samples| ==> Readable(tree, samples[i].row)
  }

  /** The training rows that take exactly these turns, in order. */
  function RoutedTo(tree: Tree, samples: seq<Sample>, path: seq<bool>): seq<Sample>
    requires AllReadable(tree, samples)
  {
    if samples == [] then []
    else
      var k := |samples| - 1;
      var rest := RoutedTo(tree, samples[..k], path);
      if Path(tree, samples[k].row) == path then rest + [samples[k]] else rest
  }

  lemma {:induction false} GrownReadable(tree: Tree, samples: seq<Sample>, p: Params, depth: int, row: map<string, real>)
    requires Grown(tree, samples, p, depth)
    requires forall f :: f in p.features ==> f in row
    ensures Readable(tree, row)
  {
    hide Chosen, Fruitless, Stops, Frequencies;
    match tree
    case Leaf(_) =>
    case Node(f, t, l, r) =>
      GrownReadable(l, Part(samples, f, t, true), p, depth + 1, row);
      GrownReadable(r, Part(samples, f, t, false), p, depth + 1, row);
  }

  lemma GrownAllReadable(tree: Tree, samples: seq<Sample>, p: Params, depth: int)
    requires WellFormed(samples, p) && Grown(tree, samples, p, depth)
    ensures AllReadable(tree, samples)
  {
    hide Grown;
    forall i | 0 <= i < |samples|
      ensures Readable(tree, samples[i].row)
    {
      GrownReadable(tree, samples, p, depth, samples[i].row);
    }
  }

  lemma {:induction false} LeafTakesAll(tree: Tree, samples: seq<Sample>)
    requires tree.Leaf? && AllReadable(tree, samples)
    ensures RoutedTo(tree, samples, []) == samples
  {
    if samples != [] {
      LeafTakesAll(tree, samples[..|samples| - 1]);
    }
  }

  lemma TurnAtNode(tree: Tree, row: map<string, real>, left: bool, path: seq<bool>)
    requires tree.Node? && Readable(tree, row)
    ensures var child := if left then tree.left else tree.right;
            Path(tree, row) == [left] + path <==> GoesLeft(row, tree.feature, tree.threshold) == left && Path(child, row) == path
  {
    var goes := GoesLeft(row, tree.feature, tree.threshold);
    var rest := Path(if goes then tree.left else tree.right, row);
    assert Path(tree, row) == [goes] + rest;
    assert ([goes] + rest)[0] == goes && ([goes] + rest)[1..] == rest;
    assert ([left] + path)[0] == left && ([left] + path)[1..] == path;
  }

  /** Routing at a node is partitioning followed by routing in the child. */
  lemma {:induction false} RoutedThroughNode(tree: Tree, samples: seq<Sample>, left: bool, path: seq<bool>)
    requires tree.Node? && AllReadable(tree, samples)
    requires Carries(samples, tree.feature)
    requires AllReadable(if left then tree.left else tree.right, Part(samples, tree.feature, tree.threshold, left))
    ensures RoutedTo(tree, samples, [left] + path)
         == RoutedTo(if left then tree.left else tree.right, Part(samples, tree.feature, tree.threshold, left), path)
  {
    hide Path;
    if samples != [] {
      var k := |samples| - 1;
      var part := Part(samples, tree.feature, tree.threshold, left);
      var s := samples[k];
      TurnAtNode(tree, s.row, left, path);
      if GoesLeft(s.row, tree.feature, tree.threshold) == left {
        assert part[..|part| - 1] == Part(samples[..k], tree.feature, tree.threshold, left);
      }
      RoutedThroughNode(tree, samples[..k], left, path);
    }
  }

  /** The leaf a row reaches holds exactly the class frequencies of the training rows routed there. */
  lemma {:induction false} LeafIsTrainingFrequency(tree: Tree, samples: seq<Sample>, p: Params, depth: int, row: map<string, real>)
    requires WellFormed(samples, p) && Grown(tree, samples, p, depth)
    requires Readable(tree, row) && AllReadable(tree, samples)
    ensures var routed := RoutedTo(tree, samples, Path(tree, row));
            && routed != []
            && Predicted(tree, row) == Frequencies(routed, p.classes)
            && (tree.Node? ==> |routed| >= p.minLeaf)
  {
    hide Part, Fruitless, Stops, Frequencies, WellFormed;
    match tree
    case Leaf(_) =>
      LeafTakesAll(tree, samples);
    case Node(f, t, l, r) =>
      var left := GoesLeft(row, f, t);
      var child := if left then l else r;
      var part := Part(samples, f, t, left);
      PartWellFormed(samples, p, f, t, left);
      GrownAllReadable(child, part, p, depth + 1);
      RoutedThroughNode(tree, samples, left, Path(child, row));
      LeafIsTrainingFrequency(child, part, p, depth + 1, row);
      AdmissibleParts(samples, p, f, t);
      if child.Leaf? {
        LeafTakesAll(child, part);
      }
  }

  lemma {:induction false} PresentCounts(counts: seq<nat>, a: nat, b: nat)
    requires a < b < |counts| && counts[a] > 0 && counts[b] > 0
    ensures Present(counts) >= 2
  {
    var k := |counts| - 1;
    if b < k {
      PresentCounts(counts[..k], a, b);
    } else {
      PresentOne(counts[..k], a);
    }
  }

  lemma {:induction false} PresentOne(counts: seq<nat>, a: nat)
    requires a < |counts| && counts[a] > 0
    ensures Present(counts) >= 1
  {
    var k := |counts| - 1;
    if a < k {
      PresentOne(counts[..k], a);
    }
  }

  lemma {:induction false} CountOfMember(samples: seq<Sample>, s: Sample)
    requires s in samples
    ensures Count(samples, s.target) > 0
  {
    var k := |samples| - 1;
    if s in samples[..k] {
      CountOfMember(samples[..k], s);
    }
  }

  lemma TwoClassesPresent(samples: seq<Sample>, p: Params, x: Sample, y: Sample)
    requires WellFormed(samples, p) && x in samples && y in samples && x.target != y.target
    ensures Present(Counts(samples, p.classes)) >= 2
  {
    CountOfMember(samples, x);
    CountOfMember(samples, y);
    if x.target < y.target {
      PresentCounts(Counts(samples, p.classes), x.target, y.target);
    } else {
      PresentCounts(Counts(samples, p.classes), y.target, x.target);
    }
  }

  /** Some draw offers no threshold that improves on these rows. */
  ghost predicate NothingToGain(samples: seq<Sample>, p: Params) {
    exists candidates :: TopsDraw(samples, p, candidates, 0.0)
  }

  /** The candidates are a draw without replacement, as many as asked for or all, and no threshold on any
      of them that leaves enough rows on both sides gains more than `gain`. */
  ghost predicate TopsDraw(samples: seq<Sample>, p: Params, candidates: seq<string>, gain: real) {
    && multiset(candidates) <= multiset(p.features)
    && (p.perSplit <= |p.features| ==> |candidates| == p.perSplit)
    && (p.perSplit >= |p.features| ==> multiset(candidates) == multiset(p.features))
    && forall f, t | f in candidates && Carries(samples, f) ::
         LargeEnough(samples, f, t, p.minLeaf) ==> SplitGain(samples, f, t, p.classes) <= gain
  }

  /** Both sides of the split have rows, and as many as a leaf must have. */
  ghost predicate LargeEnough(samples: seq<Sample>, f: string, t: real, minLeaf: int)
    requires Carries(samples, f)
  {
    forall left :: |Part(samples, f, t, left)| > 0 && |Part(samples, f, t, left)| >= minLeaf
  }

  lemma BestTopsDraw(samples: seq<Sample>, p: Params, candidates: seq<string>, best: Option<Split>, gain: real)
    requires Draw(candidates, p) && Best(samples, p, candidates, best) && (best.Some? ==> best.value.gain <= gain)
    ensures TopsDraw(samples, p, candidates, gain)
  {
    hide Admissible, SplitGain, Genuine, LargeEnough;
    if p.perSplit >= |p.features| {
      assert |multiset(p.features) - multiset(candidates)| == 0;
      assert multiset(candidates) == multiset(p.features);
    }
    forall f, t | f in candidates && Carries(samples, f)
      ensures LargeEnough(samples, f, t, p.minLeaf) ==> SplitGain(samples, f, t, p.classes) <= gain
    {
      assert Covered(samples, p, f, t, best);
      LargeSides(samples, f, t, p.minLeaf);
    }
  }

  lemma LargeSides(samples: seq<Sample>, f: string, t: real, minLeaf: int)
    requires Carries(samples, f)
    ensures Admissible(samples, f, t, minLeaf) <==> LargeEnough(samples, f, t, minLeaf)
  {
    if Admissible(samples, f, t, minLeaf) {
      forall left
        ensures |Part(samples, f, t, left)| > 0 && |Part(samples, f, t, left)| >= minLeaf
      {
        assert left == true || left == false;
      }
    }
  }

  lemma LeafGainsNothing(samples: seq<Sample>, p: Params, depth: int, tree: Tree, x: Sample, y: Sample)
    requires WellFormed(samples, p) && tree.Leaf? && Grown(tree, samples, p, depth)
    requires depth < p.maxDepth && |samples| >= 2 * p.minLeaf && x in samples && y in samples && x.target != y.target
    ensures NothingToGain(samples, p)
  {
    hide Best, Draw, Frequencies, TopsDraw;
    TwoClassesPresent(samples, p, x, y);
    var candidates :| Draw(candidates, p) && Fruitless(samples, p, candidates);
    var best :| Best(samples, p, candidates, best) && (best.Some? ==> best.value.gain <= 0.0);
    BestTopsDraw(samples, p, candidates, best, 0.0);
  }

  /** The builder gives up only for cause: a leaf above the depth limit whose rows are enough for two
      leaves and hold two classes comes from a draw on which no threshold gains anything. */
  lemma {:induction false} LeafHasCause(tree: Tree, samples: seq<Sample>, p: Params, depth: int, row: map<string, real>, x: Sample, y: Sample)
    requires WellFormed(samples, p) && Grown(tree, samples, p, depth)
    requires Readable(tree, row) && AllReadable(tree, samples)
    requires depth + |Path(tree, row)| < p.maxDepth
    requires |RoutedTo(tree, samples, Path(tree, row))| >= 2 * p.minLeaf
    requires x in RoutedTo(tree, samples, Path(tree, row)) && y in RoutedTo(tree, samples, Path(tree, row)) && x.target != y.target
    ensures NothingToGain(RoutedTo(tree, samples, Path(tree, row)), p)
  {
    hide Part, Fruitless, Stops, Frequencies, WellFormed, Chosen, NothingToGain;
    match tree
    case Leaf(_) =>
      LeafTakesAll(tree, samples);
      LeafGainsNothing(samples, p, depth, tree, x, y);
    case Node(f, t, l, r) =>
      var left := GoesLeft(row, f, t);
      var child := if left then l else r;
      var part := Part(samples, f, t, left);
      PartWellFormed(samples, p, f, t, left);
      GrownAllReadable(child, part, p, depth + 1);
      RoutedThroughNode(tree, samples, left, Path(child, row));
      LeafHasCause(child, part, p, depth + 1, row, x, y);
  }

  /** t lies halfway between the values of two rows, and no row has a value strictly between those. */
  ghost predicate Halfway(samples: seq<Sample>, f: string, t: real)
    requires Carries(samples, f)
  {
    exists a, b ::
      && 0 <= a < |samples| && 0 <= b < |samples|
      && samples[a].row[f] < t < samples[b].row[f] && t - samples[a].row[f] == samples[b].row[f] - t
      && forall i :: 0 <= i < |samples| ==> samples[i].row[f] <= samples[a].row[f] || samples[i].row[f] >= samples[b].row[f]
  }

  lemma MidpointHalfway(samples: seq<Sample>, f: string, t: real)
    requires Carries(samples, f) && IsMidpoint(DistinctValues(samples, f), t)
    ensures Halfway(samples, f, t)
  {
    hide DistinctValues;
    var values := DistinctValues(samples, f);
    var k: nat :| k + 1 < |values| && t == Midpoint(values, k);
    var a := ValueSource(samples, f, values[k]);
    var b := ValueSource(samples, f, values[k + 1]);
    forall i | 0 <= i < |samples|
      ensures samples[i].row[f] <= samples[a].row[f] || samples[i].row[f] >= samples[b].row[f]
    {
      ValuePresent(samples, f, i);
      var j :| 0 <= j < |values| && values[j] == samples[i].row[f];
      assert j < k ==> values[j] < values[k];
      assert j > k + 1 ==> values[j] > values[k + 1];
    }
  }

  /** The builder splits only for cause, too: above the depth limit, leaving enough rows on both sides,
      halfway between two neighbouring values, with the best gain of some draw, and a positive one. */
  lemma NodeHasCause(tree: Tree, samples: seq<Sample>, p: Params, depth: int)
    requires tree.Node? && Grown(tree, samples, p, depth)
    ensures depth < p.maxDepth && Carries(samples, tree.feature) && Halfway(samples, tree.feature, tree.threshold)
    ensures LargeEnough(samples, tree.feature, tree.threshold, p.minLeaf)
    ensures var gain := SplitGain(samples, tree.feature, tree.threshold, p.classes);
            gain > 0.0 && exists candidates :: tree.feature in candidates && TopsDraw(samples, p, candidates, gain)
  {
    hide Admissible, SplitGain, IsMidpoint, FirstBest, LargeEnough, Halfway, TopsDraw;
    var (f, t) := (tree.feature, tree.threshold);
    var best := Split(SplitGain(samples, f, t, p.classes), f, t);
    var candidates :| Draw(candidates, p) && Picked(samples, p, candidates, best);
    MidpointHalfway(samples, f, t);
    LargeSides(samples, f, t, p.minLeaf);
    BestTopsDraw(samples, p, candidates, Some(best), best.gain);
  }

  function Height(tree: Tree): nat {
    match tree
    case Leaf(_) => 0
    case Node(_, _, l, r) => 1 + if Height(l) >= Height(r) then Height(l) else Height(r)
  }

  /** The leaf a list of turns leads to, if it ends at one. */
  function Down(tree: Tree, turns: seq<bool>): (leaf: Option<seq<real>>)
    decreases turns
  {
    match tree
    case Leaf(distribution) => if turns == [] then Some(distribution) else None
    case Node(_, _, l, r) => if turns == [] then None else Down(if turns[0] then l else r, turns[1..])
  }

  /** The height is the number of turns on a longest way down. */
  lemma {:induction false} HeightIsLongest(tree: Tree)
    ensures exists turns :: Down(tree, turns).Some? && |turns| == Height(tree)
    ensures forall turns :: Down(tree, turns).Some? ==> |turns| <= Height(tree)
  {
    match tree
    case Leaf(_) =>
      assert Down(tree, []).Some?;
    case Node(_, _, l, r) =>
      HeightIsLongest(l);
      HeightIsLongest(r);
      var left := Height(l) >= Height(r);
      var rest :| Down(if left then l else r, rest).Some? && |rest| == Height(if left then l else r);
      var turns := [left] + rest;
      assert turns[1..] == rest && Down(tree, turns).Some?;
  }

  /** Prediction is routing: the leaf that a row's turns lead to, turning left at a node exactly when the
      row's value is at most the threshold, a tie included. */
  lemma {:induction false} PredictionFollowsTurns(tree: Tree, row: map<string, real>)
    requires Readable(tree, row)
    ensures Down(tree, Path(tree, row)) == Some(Predicted(tree, row))
    ensures tree.Node? ==> Path(tree, row) != [] && (Path(tree, row)[0] <==> row[tree.feature] <= tree.threshold)
  {
    match tree
    case Leaf(_) =>
    case Node(f, t, l, r) =>
      var child := if GoesLeft(row, f, t) then l else r;
      PredictionFollowsTurns(child, row);
      assert Path(tree, row)[1..] == Path(child, row);
  }

  lemma {:induction false} HeightBound(tree: Tree, samples: seq<Sample>, p: Params, depth: int)
    requires Grown(tree, samples, p, depth)
    ensures tree.Leaf? || depth + Height(tree) <= p.maxDepth
  {
    hide Chosen, Fruitless, Frequencies;
    match tree
    case Leaf(_) =>
    case Node(f, t, l, r) =>
      HeightBound(l, Part(samples, f, t, true), p, depth + 1);
      HeightBound(r, Part(samples, f, t, false), p, depth + 1);
  }

  /** A leaf distribution is a probability distribution. */
  lemma FrequenciesAreDistribution(samples: seq<Sample>, p: Params)
    requires WellFormed(samples, p) && samples != []
    ensures forall c :: 0 <= c < p.classes ==> Frequencies(samples, p.classes)[c] >= 0.0
    ensures Sum(Frequencies(samples, p.classes)) == 1.0
  {
    CountsTotal(samples, p);
    SharesSum(Counts(samples, p.classes), Frequencies(samples, p.classes), |samples|);
    WholeShare(|samples|);
  }

  lemma WholeShare(n: nat)
    requires n > 0
    ensures Share(n, n) == 1.0
  {
    var x := n as real;
    assert x / x == 1.0;
  }

  lemma {:induction false} SharesSum(counts: seq<nat>, shares: seq<real>, total: nat)
    requires total > 0 && |shares| == |counts|
    requires forall c :: 0 <= c < |counts| ==> shares[c] == Share(counts[c], total)
    ensures Sum(shares) == Share(Total(counts), total)
  {
    if counts != [] {
      var k := |counts| - 1;
      SharesSum(counts[..k], shares[..k], total);
      ShareAdds(Total(counts[..k]), counts[k], total);
    }
  }

  lemma ShareAdds(a: nat, b: nat, total: nat)
    requires total > 0
    ensures Share(a, total) + Share(b, total) == Share(a + b, total)
  {
  }

  // ----------------------------------------------------------- impurity decreases

  /** Row-weighted impurity over the leaves. */
  ghost function LeafImpurity(tree: Tree, samples: seq<Sample>, p: Params, depth: int): real
    requires Grown(tree, samples, p, depth)
    decreases tree
  {
    match tree
    case Leaf(_) => Weighted(samples, p)
    case Node(f, t, l, r) =>
      LeafImpurity(l, Part(samples, f, t, true), p, depth + 1) + LeafImpurity(r, Part(samples, f, t, false), p, depth + 1)
  }

  function Weighted(samples: seq<Sample>, p: Params): real {
    |samples| as real * Impurity(Counts(samples, p.classes))
  }

  lemma WeightedArithmetic(n: nat, l: nat, r: nat, ip: real, il: real, ir: real, gain: real)
    requires n == l + r && l > 0 && r > 0
    requires gain == ip - (Share(l, n) * il + Share(r, n) * ir)
    ensures l as real * il + r as real * ir == n as real * ip - n as real * gain
    ensures gain > 0.0 ==> l as real * il + r as real * ir < n as real * ip
  {
    var nr := n as real;
    assert Share(l, n) * nr == l as real && Share(r, n) * nr == r as real;
    assert nr * gain == nr * ip - ((Share(l, n) * nr) * il + (Share(r, n) * nr) * ir);
    assert gain > 0.0 ==> nr * gain > 0.0;
  }

  lemma ChosenLowersImpurity(samples: seq<Sample>, p: Params, f: string, t: real)
    requires WellFormed(samples, p) && Carries(samples, f) && Chosen(samples, p, f, t)
    ensures Weighted(Part(samples, f, t, true), p) + Weighted(Part(samples, f, t, false), p) < Weighted(samples, p)
  {
    hide Part, Impurity, Best, Draw, Total;
    var l, r := Part(samples, f, t, true), Part(samples, f, t, false);
    PartTotals(samples, p, f, t);
    PartCounts(samples, f, t, 0);
    WeightedArithmetic(|samples|, |l|, |r|, Impurity(Counts(samples, p.classes)), Impurity(Counts(l, p.classes)),
                       Impurity(Counts(r, p.classes)), SplitGain(samples, f, t, p.classes));
  }

  /** The row-weighted impurity over the leaves never exceeds the root's, and is strictly
      below it whenever the tree splits at all. */
  lemma {:induction false} ImpurityDecreases(tree: Tree, samples: seq<Sample>, p: Params, depth: int)
    requires WellFormed(samples, p) && Grown(tree, samples, p, depth)
    ensures LeafImpurity(tree, samples, p, depth) <= Weighted(samples, p)
    ensures tree.Node? ==> LeafImpurity(tree, samples, p, depth) < Weighted(samples, p)
  {
    hide Part, Fruitless, Stops, Frequencies, WellFormed, Weighted, Chosen;
    match tree
    case Leaf(_) =>
    case Node(f, t, l, r) =>
      PartWellFormed(samples, p, f, t, true);
      PartWellFormed(samples, p, f, t, false);
      ImpurityDecreases(l, Part(samples, f, t, true), p, depth + 1);
      ImpurityDecreases(r, Part(samples, f, t, false), p, depth + 1);
      ChosenLowersImpurity(samples, p, f, t);
  }
}
