/** The random forest's vote, its calibration and its prediction (agri/crop.py). */
module CropForest {
  import opened Wrappers
  import opened Sums
  import opened CropTree
  import GoldenSection

  const FLOOR := 0.000000000001
  const UNSURE_THRESHOLD := 0.6

  datatype CropError = MissingFeatures | LengthMismatch | EmptySet | UnknownClass

  datatype Forest = Forest(crops: seq<string>, features: seq<string>, trees: seq<Tree>, temperature: real)

  /** The transcendental functions, known only by what calibration needs of them. */
  datatype Numerics = Numerics(log: real -> real, exp: real -> real)

  ghost predicate Sound(num: Numerics) {
    && (forall x, y :: 0.0 < x < y ==> num.log(x) < num.log(y))
    && (forall x, y :: x < y ==> num.exp(x) < num.exp(y))
    && (forall x :: num.exp(x) > 0.0)
  }

  /** Trees vote over the forest's classes and read only the forest's features. */
  ghost predicate WellShaped(tree: Tree, classes: nat, features: seq<string>) {
    match tree
    case Leaf(d) => |d| == classes
    case Node(f, _, l, r) => f in features && WellShaped(l, classes, features) && WellShaped(r, classes, features)
  }

  ghost predicate Valid(forest: Forest) {
    && forest.crops != [] && forest.trees != []
    && forall i :: 0 <= i < |forest.trees| ==> WellShaped(forest.trees[i], |forest.crops|, forest.features)
  }

  lemma {:induction false} ShapeRead(tree: Tree, classes: nat, features: seq<string>, row: map<string, real>)
    requires WellShaped(tree, classes, features)
    requires forall f :: f in features ==> f in row
    ensures Readable(tree, row)
    ensures |Predicted(tree, row)| == classes
  {
    match tree
    case Leaf(_) =>
    case Node(_, _, l, r) =>
      ShapeRead(l, classes, features, row);
      ShapeRead(r, classes, features, row);
  }

  ghost predicate Distribution(d: seq<real>) {
    (forall i :: 0 <= i < |d| ==> d[i] >= 0.0) && Sum(d) == 1.0
  }

  lemma {:induction false} RoutedWellFormed(tree: Tree, samples: seq<Sample>, path: seq<bool>, p: Params)
    requires AllReadable(tree, samples) && WellFormed(samples, p)
    ensures WellFormed(RoutedTo(tree, samples, path), p)
  {
    if samples != [] {
      RoutedWellFormed(tree, samples[..|samples| - 1], path, p);
    }
  }

  lemma {:induction false} GrownWellShaped(tree: Tree, samples: seq<Sample>, p: Params, depth: int)
    requires Grown(tree, samples, p, depth)
    ensures WellShaped(tree, p.classes, p.features)
  {
    hide Chosen, Fruitless, Stops;
    match tree
    case Leaf(_) =>
    case Node(f, t, l, r) =>
      GrownWellShaped(l, Part(samples, f, t, true), p, depth + 1);
      GrownWellShaped(r, Part(samples, f, t, false), p, depth + 1);
  }

  /** Every tree the builder can return votes a probability distribution on every complete row. */
  lemma GrownVotesDistribution(tree: Tree, samples: seq<Sample>, p: Params, depth: int, row: map<string, real>)
    requires WellFormed(samples, p) && Grown(tree, samples, p, depth)
    requires forall f :: f in p.features ==> f in row
    ensures WellShaped(tree, p.classes, p.features) && Readable(tree, row)
    ensures Distribution(Predicted(tree, row))
  {
    hide Grown, WellFormed, Predicted, Path, Frequencies, RoutedTo;
    GrownWellShaped(tree, samples, p, depth);
    GrownReadable(tree, samples, p, depth, row);
    GrownAllReadable(tree, samples, p, depth);
    LeafIsTrainingFrequency(tree, samples, p, depth, row);
    var routed := RoutedTo(tree, samples, Path(tree, row));
    RoutedWellFormed(tree, samples, Path(tree, row), p);
    FrequenciesAreDistribution(routed, p);
  }

  // ----------------------------------------------------------------- the vote

  function AddVectors(s: seq<real>, t: seq<real>): (r: seq<real>)
    requires |s| == |t|
    ensures |r| == |s|
    ensures forall i :: 0 <= i < |s| ==> r[i] == s[i] + t[i]
  {
    seq(|s|, i requires 0 <= i < |s| => s[i] + t[i])
  }

  ghost predicate AllVote(trees: seq<Tree>, classes: nat, row: map<string, real>) {
    forall i :: 0 <= i < |trees| ==> Readable(trees[i], row) && |Predicted(trees[i], row)| == classes
  }

  function Votes(trees: seq<Tree>, classes: nat, row: map<string, real>): (r: seq<real>)
    requires AllVote(trees, classes, row)
    ensures |r| == classes
  {
    if trees == [] then seq(classes, _ => 0.0)
    else AddVectors(Votes(trees[..|trees| - 1], classes, row), Predicted(trees[|trees| - 1], row))
  }

  function Averaged(trees: seq<Tree>, classes: nat, row: map<string, real>): (r: seq<real>)
    requires AllVote(trees, classes, row) && trees != []
    ensures |r| == classes
  {
    Divided(Votes(trees, classes, row), |trees| as real)
  }

  lemma {:induction false} VotesTotal(trees: seq<Tree>, classes: nat, row: map<string, real>)
    requires AllVote(trees, classes, row)
    requires forall i :: 0 <= i < |trees| ==> Distribution(Predicted(trees[i], row))
    ensures forall c :: 0 <= c < classes ==> Votes(trees, classes, row)[c] >= 0.0
    ensures Sum(Votes(trees, classes, row)) == |trees| as real
  {
    hide Readable, Predicted;
    if trees == [] {
      SumConstant(Votes(trees, classes, row), 0.0);
    } else {
      var k := |trees| - 1;
      VotesTotal(trees[..k], classes, row);
      var s, t := Votes(trees[..k], classes, row), Predicted(trees[k], row);
      SumLinear(AddVectors(s, t), s, t, 1.0, 1.0);
    }
  }

  /** Averaging distributions over the trees gives a distribution. */
  lemma AverageIsDistribution(trees: seq<Tree>, classes: nat, row: map<string, real>)
    requires AllVote(trees, classes, row) && trees != []
    requires forall i :: 0 <= i < |trees| ==> Distribution(Predicted(trees[i], row))
    ensures Distribution(Averaged(trees, classes, row))
  {
    hide Votes, Readable, Predicted;
    VotesTotal(trees, classes, row);
    DividedIsDistribution(Votes(trees, classes, row), |trees| as real);
  }

  /** What the trees say of one class, tree by tree. */
  function ClassVotes(trees: seq<Tree>, classes: nat, row: map<string, real>, c: nat): (r: seq<real>)
    requires AllVote(trees, classes, row) && c < classes
    ensures |r| == |trees| && forall k :: 0 <= k < |trees| ==> r[k] == Predicted(trees[k], row)[c]
  {
    seq(|trees|, k requires 0 <= k < |trees| => Predicted(trees[k], row)[c])
  }

  lemma {:induction false} VotesAddUp(trees: seq<Tree>, classes: nat, row: map<string, real>, c: nat)
    requires AllVote(trees, classes, row) && c < classes
    ensures Votes(trees, classes, row)[c] == Sum(ClassVotes(trees, classes, row, c))
  {
    hide Readable, Predicted;
    if trees != [] {
      var n := |trees| - 1;
      VotesAddUp(trees[..n], classes, row, c);
      assert ClassVotes(trees, classes, row, c)[..n] == ClassVotes(trees[..n], classes, row, c);
    }
  }

  /** The vote for a class is the mean of what all the trees say of it. */
  lemma AveragedIsMean(trees: seq<Tree>, classes: nat, row: map<string, real>, c: nat)
    requires AllVote(trees, classes, row) && trees != [] && c < classes
    ensures Averaged(trees, classes, row)[c] * |trees| as real == Sum(ClassVotes(trees, classes, row, c))
  {
    hide Votes, Readable, Predicted, Sum;
    VotesAddUp(trees, classes, row, c);
  }

  lemma DividedIsDistribution(v: seq<real>, n: real)
    requires n > 0.0 && Sum(v) == n
    requires forall i :: 0 <= i < |v| ==> v[i] >= 0.0
    ensures Distribution(Divided(v, n))
  {
    DividedSum(v, n);
    DivideOrder(0.0, 0.0, n);
    forall i | 0 <= i < |v|
      ensures v[i] / n >= 0.0
    {
      DivideOrder(0.0, v[i], n);
    }
  }

  // -------------------------------------------------------------- temperature

  function AtLeastFloor(p: real): real {
    if p > FLOOR then p else FLOOR
  }

  function Logit(p: real, temperature: real, num: Numerics): real
    requires temperature != 0.0
  {
    num.log(AtLeastFloor(p)) / temperature
  }

  function Logits(p: seq<real>, temperature: real, num: Numerics): (r: seq<real>)
    requires temperature != 0.0
    ensures |r| == |p|
    ensures forall i :: 0 <= i < |p| ==> r[i] == Logit(p[i], temperature, num)
  {
    seq(|p|, i requires 0 <= i < |p| => Logit(p[i], temperature, num))
  }

  function Peak(v: seq<real>): real
    requires v != []
  {
    if |v| == 1 then v[0]
    else
      var m := Peak(v[..|v| - 1]);
      if v[|v| - 1] > m then v[|v| - 1] else m
  }

  function Exponentiated(v: seq<real>, peak: real, num: Numerics): (r: seq<real>)
    ensures |r| == |v|
    ensures forall i :: 0 <= i < |v| ==> r[i] == num.exp(v[i] - peak)
  {
    seq(|v|, i requires 0 <= i < |v| => num.exp(v[i] - peak))
  }

  lemma PositiveSum(s: seq<real>)
    requires s != [] && forall i :: 0 <= i < |s| ==> s[i] > 0.0
    ensures Sum(s) > 0.0
  {
    SumNonNegative(s);
    assert s[0] != 0.0;
  }

  /** Divide the logits by the temperature and re-normalise. */
  function Scaled(p: seq<real>, temperature: real, num: Numerics): (r: seq<real>)
    requires p != [] && temperature > 0.0 && Sound(num)
    ensures |r| == |p|
  {
    var logits := Logits(p, temperature, num);
    var e := Exponentiated(logits, Peak(logits), num);
    PositiveSum(e);
    Divided(e, Sum(e))
  }

  /** Calibrated probabilities are a distribution, whatever vector was calibrated. */
  lemma ScaledIsDistribution(p: seq<real>, temperature: real, num: Numerics)
    requires p != [] && temperature > 0.0 && Sound(num)
    ensures Distribution(Scaled(p, temperature, num))
  {
    var logits := Logits(p, temperature, num);
    var e := Exponentiated(logits, Peak(logits), num);
    PositiveSum(e);
    DividedIsDistribution(e, Sum(e));
  }

  /** Calibration keeps the order of the classes, strictly so above the floor. */
  lemma ScaledKeepsOrder(p: seq<real>, temperature: real, num: Numerics, i: nat, j: nat)
    requires p != [] && temperature > 0.0 && Sound(num)
    requires i < |p| && j < |p| && p[i] <= p[j]
    ensures Scaled(p, temperature, num)[i] <= Scaled(p, temperature, num)[j]
    ensures p[i] < p[j] && p[j] > FLOOR ==> Scaled(p, temperature, num)[i] < Scaled(p, temperature, num)[j]
  {
    hide AtLeastFloor, Scaled;
    var a, b := AtLeastFloor(p[i]), AtLeastFloor(p[j]);
    FloorOrder(p[i], p[j]);
    var peak, total := ScaledEntries(p, temperature, num);
    if a < b {
      assert num.log(a) < num.log(b);
      DivideOrder(num.log(a), num.log(b), temperature);
      var x, y := num.log(a) / temperature - peak, num.log(b) / temperature - peak;
      assert num.exp(x) < num.exp(y);
      DivideOrder(num.exp(x), num.exp(y), total);
    }
  }

  lemma ScaledEntries(p: seq<real>, temperature: real, num: Numerics) returns (peak: real, total: real)
    requires p != [] && temperature > 0.0 && Sound(num)
    ensures total > 0.0
    ensures forall k :: 0 <= k < |p| ==>
      Scaled(p, temperature, num)[k] == num.exp(num.log(AtLeastFloor(p[k])) / temperature - peak) / total
  {
    hide AtLeastFloor, Peak;
    var logits := Logits(p, temperature, num);
    peak := Peak(logits);
    var e := Exponentiated(logits, peak, num);
    PositiveSum(e);
    total := Sum(e);
  }

  lemma FloorOrder(x: real, y: real)
    requires x <= y
    ensures 0.0 < AtLeastFloor(x) <= AtLeastFloor(y)
    ensures x < y && y > FLOOR ==> AtLeastFloor(x) < AtLeastFloor(y)
  {
  }

  // --------------------------------------------------------------- prediction

  /** The index `max(range(n), key=...)` picks: the first of the largest. */
  ghost predicate FirstMax(p: seq<real>, i: nat) {
    && i < |p|
    && (forall j :: 0 <= j < |p| ==> p[j] <= p[i])
    && (forall j :: 0 <= j < i ==> p[j] < p[i])
  }

  /** Calibration never changes the predicted class. */
  lemma CalibrationKeepsCrop(p: seq<real>, temperature: real, num: Numerics, i: nat)
    requires p != [] && temperature > 0.0 && Sound(num)
    requires FirstMax(p, i) && p[i] > FLOOR
    ensures FirstMax(Scaled(p, temperature, num), i)
  {
    hide Scaled, Sound;
    forall j | 0 <= j < |p|
      ensures Scaled(p, temperature, num)[j] <= Scaled(p, temperature, num)[i]
      ensures j < i ==> Scaled(p, temperature, num)[j] < Scaled(p, temperature, num)[i]
    {
      ScaledKeepsOrder(p, temperature, num, j, i);
    }
  }

  /** In a distribution over fewer than 10^12 classes the winner is above the floor. */
  lemma WinnerAboveFloor(p: seq<real>, i: nat)
    requires Distribution(p) && FirstMax(p, i) && |p| < 1_000_000_000_000
    ensures p[i] > FLOOR
  {
    var top := seq(|p|, _ => p[i]);
    SumMonotone(p, top);
    SumConstant(top, p[i]);
    assert Sum(top) == |p| as real * p[i];
    TooManyNeeded(|p|, p[i]);
  }

  lemma TooManyNeeded(n: nat, x: real)
    requires n < 1_000_000_000_000
    ensures n as real * x >= 1.0 ==> x > FLOOR
  {
    if x <= FLOOR {
      assert n as real * x <= n as real * FLOOR;
    }
  }

  /** The forest's answer for a complete row: the averaged vote, calibrated unless the temperature is 1. */
  function CalibratedVote(forest: Forest, row: map<string, real>, num: Numerics): (r: seq<real>)
    requires Valid(forest) && forest.temperature > 0.0 && Sound(num) && AllVote(forest.trees, |forest.crops|, row)
    ensures |r| == |forest.crops|
    ensures forest.temperature == 1.0 ==> r == Averaged(forest.trees, |forest.crops|, row)
  {
    var averaged := Averaged(forest.trees, |forest.crops|, row);
    if forest.temperature == 1.0 then averaged else Scaled(averaged, forest.temperature, num)
  }

  datatype Prediction = Prediction(crop: string, confidence: real, distribution: seq<real>)

  /** The prediction the forest makes: its calibrated vote, the first favourite and that one's share. */
  ghost predicate Predicts(forest: Forest, row: map<string, real>, num: Numerics, prediction: Prediction)
    requires Valid(forest) && forest.temperature > 0.0 && Sound(num) && AllVote(forest.trees, |forest.crops|, row)
  {
    && prediction.distribution == CalibratedVote(forest, row, num)
    && exists best: nat :: FirstMax(prediction.distribution, best)
         && prediction.crop == forest.crops[best] && prediction.confidence == prediction.distribution[best]
  }

  /** Below the threshold the answer is "unsure", never a forced class. */
  function Shown(prediction: Prediction): string {
    if prediction.confidence < UNSURE_THRESHOLD then "unsure" else prediction.crop
  }

  method Probabilities(forest: Forest, row: map<string, real>, num: Numerics) returns (r: Result<seq<real>, CropError>)
    requires Valid(forest) && forest.temperature > 0.0 && Sound(num)
    ensures r == Err(MissingFeatures) <==> exists f :: f in forest.features && f !in row
    ensures r.Ok? ==> AllVote(forest.trees, |forest.crops|, row)
    ensures r.Ok? ==> r.value == CalibratedVote(forest, row, num)
    ensures r.Ok? || r == Err(MissingFeatures)
  {
    hide Sound, Scaled;
    if exists f :: f in forest.features && f !in row {
      return Err(MissingFeatures);
    }
    var n := |forest.crops|;
    forall i | 0 <= i < |forest.trees|
      ensures Readable(forest.trees[i], row) && |Predicted(forest.trees[i], row)| == n
    {
      ShapeRead(forest.trees[i], n, forest.features, row);
    }
    var totals := seq(n, _ => 0.0);
    for k := 0 to |forest.trees|
      invariant totals == Votes(forest.trees[..k], n, row)
    {
      assert forest.trees[..k + 1][..k] == forest.trees[..k];
      var distribution := TreePredict(forest.trees[k], row);
      ghost var before := totals;
      for i := 0 to |distribution|
        invariant |totals| == n
        invariant forall j :: 0 <= j < i ==> totals[j] == before[j] + distribution[j]
        invariant forall j :: i <= j < n ==> totals[j] == before[j]
      {
        totals := totals[i := totals[i] + distribution[i]];
      }
      assert totals == AddVectors(before, distribution);
    }
    assert forest.trees[..|forest.trees|] == forest.trees;
    var averaged := Divided(totals, |forest.trees| as real);
    if forest.temperature == 1.0 {
      return Ok(averaged);
    }
    return Ok(Scaled(averaged, forest.temperature, num));
  }

  method ArgMax(p: seq<real>) returns (best: nat)
    requires p != []
    ensures FirstMax(p, best)
  {
    best := 0;
    for i := 1 to |p|
      invariant best < i
      invariant forall j :: 0 <= j < i ==> p[j] <= p[best]
      invariant forall j :: 0 <= j < best ==> p[j] < p[best]
    {
      if p[i] > p[best] {
        best := i;
      }
    }
  }

  method Predict(forest: Forest, row: map<string, real>, num: Numerics) returns (r: Result<Prediction, CropError>)
    requires Valid(forest) && forest.temperature > 0.0 && Sound(num)
    ensures r == Err(MissingFeatures) <==> exists f :: f in forest.features && f !in row
    ensures r.Ok? || r == Err(MissingFeatures)
    ensures r.Ok? ==> AllVote(forest.trees, |forest.crops|, row) && Predicts(forest, row, num, r.value)
  {
    hide Sound, Scaled, Averaged;
    var p := Probabilities(forest, row, num);
    if p.Err? {
      return Err(p.error);
    }
    var probabilities := p.value;
    var best := ArgMax(probabilities);
    r := Ok(Prediction(forest.crops[best], probabilities[best], probabilities));
  }

  lemma {:induction false} FirstMaxExists(p: seq<real>) returns (best: nat)
    requires p != []
    ensures FirstMax(p, best)
  {
    var k := |p| - 1;
    if k == 0 {
      best := 0;
    } else {
      best := FirstMaxExists(p[..k]);
      if p[k] > p[best] {
        best := k;
      }
    }
  }

  /** The vote's favourite is also the favourite after calibration. */
  lemma VoteFavourite(forest: Forest, row: map<string, real>, num: Numerics) returns (best: nat)
    requires Valid(forest) && forest.temperature > 0.0 && Sound(num) && |forest.crops| < 1_000_000_000_000
    requires AllVote(forest.trees, |forest.crops|, row)
    requires forall i :: 0 <= i < |forest.trees| ==> Distribution(Predicted(forest.trees[i], row))
    ensures var averaged := Averaged(forest.trees, |forest.crops|, row);
            var scaled := Scaled(averaged, forest.temperature, num);
            && FirstMax(averaged, best) && FirstMax(scaled, best)
            && Distribution(averaged) && Distribution(scaled)
  {
    hide Sound, Scaled, Distribution;
    var averaged := Averaged(forest.trees, |forest.crops|, row);
    AverageIsDistribution(forest.trees, |forest.crops|, row);
    ScaledIsDistribution(averaged, forest.temperature, num);
    best := FirstMaxExists(averaged);
    WinnerAboveFloor(averaged, best);
    CalibrationKeepsCrop(averaged, forest.temperature, num, best);
  }

  lemma SameFirstMax(p: seq<real>, i: nat, j: nat)
    requires FirstMax(p, i) && FirstMax(p, j)
    ensures i == j
  {
    assert p[i] == p[j];
  }

  /** Trees that each vote a distribution, over a plausible number of crops. */
  ghost predicate Votable(forest: Forest, row: map<string, real>) {
    && |forest.crops| < 1_000_000_000_000
    && AllVote(forest.trees, |forest.crops|, row)
    && forall i :: 0 <= i < |forest.trees| ==> Distribution(Predicted(forest.trees[i], row))
  }

  /** The crop is the first favourite of the uncalibrated vote, at every temperature, and the
      probabilities shown with it are a distribution. */
  lemma PredictedIsFavourite(forest: Forest, row: map<string, real>, num: Numerics, prediction: Prediction, favourite: nat)
    requires Valid(forest) && forest.temperature > 0.0 && Sound(num) && Votable(forest, row)
    requires Predicts(forest, row, num, prediction) && FirstMax(Averaged(forest.trees, |forest.crops|, row), favourite)
    ensures prediction.crop == forest.crops[favourite] && Distribution(prediction.distribution)
  {
    hide Sound, Scaled, Averaged, Distribution;
    var best := VoteFavourite(forest, row, num);
    SameFirstMax(Averaged(forest.trees, |forest.crops|, row), best, favourite);
    var shown: nat :| FirstMax(prediction.distribution, shown) && prediction.crop == forest.crops[shown];
    SameFirstMax(prediction.distribution, shown, best);
  }

  /** Two temperatures show different answers exactly when one of them is unsure and the other is not:
      calibration can withhold a crop, never exchange it. */
  lemma TemperatureOnlyAbstains(forest: Forest, temperature: real, row: map<string, real>, num: Numerics, before: Prediction, after: Prediction)
    requires Valid(forest) && forest.temperature > 0.0 && temperature > 0.0 && Sound(num) && Votable(forest, row)
    requires Predicts(forest, row, num, before) && Predicts(forest.(temperature := temperature), row, num, after)
    ensures before.crop == after.crop
    ensures Shown(before) != Shown(after) <==>
      before.crop != "unsure" && (before.confidence < UNSURE_THRESHOLD) != (after.confidence < UNSURE_THRESHOLD)
  {
    hide Sound, Scaled, Averaged, Distribution;
    var favourite := FirstMaxExists(Averaged(forest.trees, |forest.crops|, row));
    PredictedIsFavourite(forest, row, num, before, favourite);
    PredictedIsFavourite(forest.(temperature := temperature), row, num, after, favourite);
  }

  lemma {:induction false} PeakIsMax(v: seq<real>)
    requires v != []
    ensures Peak(v) in v && forall i :: 0 <= i < |v| ==> v[i] <= Peak(v)
  {
    if |v| > 1 {
      PeakIsMax(v[..|v| - 1]);
    }
  }

  /** How far below the favourite's logit a class lies, before the temperature divides it. */
  function Shortfall(p: seq<real>, num: Numerics, i: nat, k: nat): real
    requires i < |p| && k < |p|
  {
    num.log(AtLeastFloor(p[k])) - num.log(AtLeastFloor(p[i]))
  }

  lemma DivideDifference(x: real, y: real, n: real)
    requires n > 0.0
    ensures x / n - y / n == (x - y) / n
    ensures x <= y ==> x / n <= y / n
  {
    DivideOrder(x, y, n);
    assert (x - y) / n == x / n - y / n;
  }

  lemma FavouriteLogit(p: seq<real>, temperature: real, num: Numerics, i: nat, k: nat)
    requires temperature > 0.0 && Sound(num) && FirstMax(p, i) && k < |p|
    ensures Shortfall(p, num, i, k) <= 0.0
    ensures Logit(p[k], temperature, num) <= Logit(p[i], temperature, num)
    ensures Logit(p[k], temperature, num) - Logit(p[i], temperature, num) == Shortfall(p, num, i, k) / temperature
  {
    hide AtLeastFloor;
    FloorOrder(p[k], p[i]);
    var x, y := AtLeastFloor(p[k]), AtLeastFloor(p[i]);
    assert x < y ==> num.log(x) < num.log(y);
    DivideDifference(num.log(x), num.log(y), temperature);
  }

  lemma FavouritePeak(p: seq<real>, temperature: real, num: Numerics, i: nat)
    requires temperature > 0.0 && Sound(num) && FirstMax(p, i)
    ensures Peak(Logits(p, temperature, num)) == Logit(p[i], temperature, num)
  {
    hide Peak, Logit, Sound;
    var logits := Logits(p, temperature, num);
    PeakIsMax(logits);
    var k :| 0 <= k < |logits| && logits[k] == Peak(logits);
    FavouriteLogit(p, temperature, num, i, k);
  }

  /** The favourite has the peak logit, so its share is exp(0) over the total. */
  lemma FavouriteShare(p: seq<real>, temperature: real, num: Numerics, i: nat) returns (e: seq<real>)
    requires p != [] && temperature > 0.0 && Sound(num) && FirstMax(p, i)
    ensures |e| == |p| && Sum(e) > 0.0 && Scaled(p, temperature, num)[i] == num.exp(0.0) / Sum(e)
    ensures forall k :: 0 <= k < |p| ==> e[k] == num.exp(Shortfall(p, num, i, k) / temperature)
  {
    hide Peak, Logit, Shortfall, Sum;
    var logits := Logits(p, temperature, num);
    FavouritePeak(p, temperature, num, i);
    e := Exponentiated(logits, Peak(logits), num);
    PositiveSum(e);
    hide Sound;
    forall k | 0 <= k < |p|
      ensures e[k] == num.exp(Shortfall(p, num, i, k) / temperature)
    {
      FavouriteLogit(p, temperature, num, i, k);
    }
    assert logits[i] - logits[i] == 0.0;
  }

  lemma FlatterQuotient(x: real, cool: real, hot: real)
    requires x <= 0.0 && 0.0 < cool <= hot
    ensures x / cool <= x / hot
  {
    var y := x / hot;
    assert y * hot == x && y <= 0.0;
    assert y * cool >= y * hot;
    assert x / cool <= (y * cool) / cool == y;
  }

  lemma LargerTotalSmallerShare(x: real, small: real, large: real)
    requires x > 0.0 && 0.0 < small <= large
    ensures x / large <= x / small
  {
    FlatterQuotient(-x, small, large);
    assert -x / small == -(x / small) && -x / large == -(x / large);
  }

  /** A hotter calibration is never surer of the favourite, so raising the temperature can only withhold. */
  lemma HotterIsNoSurer(p: seq<real>, cool: real, hot: real, num: Numerics, i: nat)
    requires p != [] && 0.0 < cool <= hot && Sound(num) && FirstMax(p, i)
    ensures Scaled(p, hot, num)[i] <= Scaled(p, cool, num)[i]
  {
    hide Shortfall, Scaled;
    var c := FavouriteShare(p, cool, num, i);
    var h := FavouriteShare(p, hot, num, i);
    forall k | 0 <= k < |p|
      ensures c[k] <= h[k]
    {
      FavouriteLogit(p, cool, num, i, k);
      var x := Shortfall(p, num, i, k);
      FlatterQuotient(x, cool, hot);
      assert x / cool < x / hot ==> num.exp(x / cool) < num.exp(x / hot);
    }
    SumMonotone(c, h);
    LargerTotalSmallerShare(num.exp(0.0), Sum(c), Sum(h));
  }

  // ------------------------------------------------------- fitting the temperature

  function Nll(raw: seq<seq<real>>, encoded: seq<nat>, temperature: real, num: Numerics): real
    requires |raw| == |encoded| && temperature > 0.0 && Sound(num)
    requires forall i :: 0 <= i < |raw| ==> encoded[i] < |raw[i]|
  {
    if raw == [] then 0.0
    else
      var k := |raw| - 1;
      Nll(raw[..k], encoded[..k], temperature, num)
        - num.log(AtLeastFloor(Scaled(raw[k], temperature, num)[encoded[k]]))
  }

  /** The objective handed to the golden-section loop: the mean of Nll. */
  function Objective(raw: seq<seq<real>>, encoded: seq<nat>, num: Numerics): real -> real
    requires raw != [] && |raw| == |encoded| && Sound(num)
    requires forall i :: 0 <= i < |raw| ==> encoded[i] < |raw[i]|
  {
    t => if t > 0.0 then Nll(raw, encoded, t, num) / |raw| as real else 0.0
  }

  method IndexOf(crops: seq<string>, crop: string) returns (r: Option<nat>)
    ensures r.Some? ==> r.value < |crops| && crops[r.value] == crop
    ensures r.None? <==> crop !in crops
  {
    for i := 0 to |crops|
      invariant crop !in crops[..i]
    {
      if crops[i] == crop {
        return Some(i);
      }
      assert crops[..i + 1] == crops[..i] + [crops[i]];
    }
    assert crops[..|crops|] == crops;
    r := None;
  }

  ghost predicate Fittable(forest: Forest, rows: seq<map<string, real>>, labels: seq<string>) {
    && |rows| == |labels| && rows != []
    && (forall i :: 0 <= i < |labels| ==> labels[i] in forest.crops)
    && forall i, f :: 0 <= i < |rows| && f in forest.features ==> f in rows[i]
  }

  /** Fitting changes the temperature and nothing else, keeps it within the bounds, and lands within
      tolerance/2 of the minimiser of its objective, when that is unimodal: the mean negative log
      likelihood of the labels under the forest's own votes for the rows. */
  method FitTemperature(forest: Forest, rows: seq<map<string, real>>, labels: seq<string>,
                        low: real, high: real, tolerance: real, g: real, num: Numerics)
    returns (r: Result<Forest, CropError>, ghost raw: seq<seq<real>>, ghost encoded: seq<nat>)
    requires Valid(forest) && forest.temperature > 0.0 && Sound(num)
    requires 0.0 < low <= high && tolerance > 0.0 && GoldenSection.Golden(g)
    ensures r.Ok? <==> Fittable(forest, rows, labels)
    ensures |rows| != |labels| ==> r == Err(LengthMismatch)
    ensures |rows| == |labels| == 0 ==> r == Err(EmptySet)
    ensures r.Ok? ==>
      && r.value == forest.(temperature := r.value.temperature)
      && low <= r.value.temperature <= high
      && |raw| == |encoded| == |rows|
      && (forall i :: 0 <= i < |raw| ==> AllVote(forest.trees, |forest.crops|, rows[i]) && raw[i] == CalibratedVote(forest, rows[i], num))
      && (forall i :: 0 <= i < |raw| ==> encoded[i] < |forest.crops| && forest.crops[encoded[i]] == labels[i])
      && forall m :: GoldenSection.Unimodal(Objective(raw, encoded, num), low, high, m) ==>
           GoldenSection.Width(r.value.temperature, m) <= tolerance / 2.0
  {
    hide Sound, Scaled, Averaged, Nll, CalibratedVote, AllVote;
    raw, encoded := [], [];
    if |rows| != |labels| {
      return Err(LengthMismatch), raw, encoded;
    }
    if rows == [] {
      return Err(EmptySet), raw, encoded;
    }
    var codes: seq<nat> := [];
    for i := 0 to |labels|
      invariant |codes| == i
      invariant forall j :: 0 <= j < i ==> codes[j] < |forest.crops| && forest.crops[codes[j]] == labels[j]
    {
      var code := IndexOf(forest.crops, labels[i]);
      if code.None? {
        return Err(UnknownClass), raw, encoded;
      }
      codes := codes + [code.value];
    }
    var votes: seq<seq<real>> := [];
    for i := 0 to |rows|
      invariant |votes| == i
      invariant forall j :: 0 <= j < i ==> AllVote(forest.trees, |forest.crops|, rows[j]) && votes[j] == CalibratedVote(forest, rows[j], num)
      invariant forall j, f :: 0 <= j < i && f in forest.features ==> f in rows[j]
    {
      var p := Probabilities(forest, rows[i], num);
      if p.Err? {
        return Err(p.error), raw, encoded;
      }
      votes := votes + [p.value];
    }
    raw, encoded := votes, codes;
    var temperature, steps := GoldenSection.Minimise(Objective(votes, codes, num), low, high, g, tolerance);
    r := Ok(forest.(temperature := temperature));
  }
}
