/** SPEI over a monthly series: accumulation, calendar months, fits and indices (agri/drought.py). */
module Spei {
  import opened Wrappers
  import opened Sums
  import opened Sorting
  import opened Drought

  // ------------------------------------------------------------- the whole series

  /** Rolling sums aligned to the ending month; no value for an incomplete window. */
  function Rolling(series: seq<real>, timescale: int): (r: seq<Option<real>>)
    requires timescale >= 1
    ensures |r| == |series|
    ensures forall i :: 0 <= i < |series| ==> (r[i].None? <==> i + 1 < timescale)
    ensures forall i :: timescale - 1 <= i < |series| ==> r[i] == Some(Sum(series[i + 1 - timescale..i + 1]))
  {
    seq(|series|, i requires 0 <= i < |series| =>
      if i + 1 < timescale then None else Some(Sum(series[i + 1 - timescale..i + 1])))
  }

  method Accumulate(series: seq<real>, timescale: int) returns (r: Result<seq<Option<real>>, DroughtError>)
    ensures r == if timescale < 1 then Err(BadTimescale) else Ok(Rolling(series, timescale))
  {
    if timescale < 1 {
      return Err(BadTimescale);
    }
    var out: seq<Option<real>> := [];
    for i := 0 to |series|
      invariant out == Rolling(series, timescale)[..i]
    {
      if i + 1 < timescale {
        out := out + [None];
      } else {
        out := out + [Some(Sum(series[i + 1 - timescale..i + 1]))];
      }
    }
    assert out == Rolling(series, timescale);
    r := Ok(out);
  }

  /** Calendar month 1..12 of a series position. */
  function Month(first: int, offset: nat): int {
    (first - 1 + offset) % 12 + 1
  }

  /** The accumulations of one calendar month, in time order. */
  function MonthValues(acc: seq<Option<real>>, first: int, month: int): seq<real> {
    if acc == [] then []
    else
      var k := |acc| - 1;
      var rest := MonthValues(acc[..k], first, month);
      if acc[k].Some? && Month(first, k) == month then rest + [acc[k].value] else rest
  }

  /** Months with a value, in order of first appearance: the grouping's key order. */
  function Months(acc: seq<Option<real>>, first: int): seq<int> {
    if acc == [] then []
    else
      var k := |acc| - 1;
      var rest := Months(acc[..k], first);
      if acc[k].Some? && Month(first, k) !in rest then rest + [Month(first, k)] else rest
  }

  lemma {:induction false} MonthSeen(acc: seq<Option<real>>, first: int, i: nat)
    requires i < |acc| && acc[i].Some?
    ensures Month(first, i) in Months(acc, first)
  {
    if i < |acc| - 1 {
      MonthSeen(acc[..|acc| - 1], first, i);
    }
  }

  lemma {:induction false} NoValuesOutsideMonths(acc: seq<Option<real>>, first: int, month: int)
    ensures month in Months(acc, first) <==> MonthValues(acc, first, month) != []
  {
    if acc != [] {
      NoValuesOutsideMonths(acc[..|acc| - 1], first, month);
    }
  }

  method CalendarMonthSlices(acc: seq<Option<real>>, first: int) returns (months: seq<int>, grouped: map<int, seq<real>>)
    ensures months == Months(acc, first)
    ensures forall m :: m in grouped <==> m in months
    ensures forall m :: m in grouped ==> grouped[m] == MonthValues(acc, first, m)
  {
    months, grouped := [], map[];
    for i := 0 to |acc|
      invariant months == Months(acc[..i], first)
      invariant forall m :: m in grouped <==> m in months
      invariant forall m :: m in grouped ==> grouped[m] == MonthValues(acc[..i], first, m)
    {
      assert acc[..i + 1][..i] == acc[..i];
      if acc[i].Some? {
        var month := Month(first, i);
        NoValuesOutsideMonths(acc[..i], first, month);
        if month !in grouped {
          months, grouped := months + [month], grouped[month := []];
        }
        grouped := grouped[month := grouped[month] + [acc[i].value]];
      }
    }
    assert acc[..|acc|] == acc;
  }

  /** The first fitting error among the first k months, in key order. */
  function FitError(acc: seq<Option<real>>, first: int, months: seq<int>, k: nat, num: Numerics): Option<DroughtError>
    requires k <= |months| && Sound(num)
  {
    if k == 0 then None
    else
      var before := FitError(acc, first, months, k - 1, num);
      if before.Some? then before
      else
        match FitPwm(MonthValues(acc, first, months[k - 1]), num)
        case Err(e) => Some(e)
        case Ok(_) => None
  }

  /** The index at one position, from its own calendar month's fit. */
  function IndexAt(acc: seq<Option<real>>, timescale: int, first: int, i: nat, num: Numerics): Option<Index>
    requires i < |acc| && Sound(num)
  {
    if acc[i].None? then None
    else
      var month := Month(first, i);
      var values := MonthValues(acc, first, month);
      match FitPwm(values, num)
      case Err(_) => None
      case Ok(fit) =>
        FitScalePositive(values, num);
        Some(Index(Standardise(Cdf(acc[i].value, fit, num), num), timescale, month, |values|))
  }

  predicate ShortMonth(acc: seq<Option<real>>, first: int, months: seq<int>, minYears: int) {
    exists m :: m in months && |MonthValues(acc, first, m)| < minYears
  }

  function Indices(acc: seq<Option<real>>, timescale: int, first: int, num: Numerics): (r: seq<Option<Index>>)
    requires Sound(num)
    ensures |r| == |acc|
    ensures forall i :: 0 <= i < |acc| ==> r[i] == IndexAt(acc, timescale, first, i, num)
  {
    seq(|acc|, i requires 0 <= i < |acc| => IndexAt(acc, timescale, first, i, num))
  }

  /** Everything after accumulation. */
  function SpeiOf(acc: seq<Option<real>>, timescale: int, first: int, minYears: int, num: Numerics)
    : Result<seq<Option<Index>>, DroughtError>
    requires Sound(num)
  {
    var months := Months(acc, first);
    if ShortMonth(acc, first, months, minYears) then Err(ShortRecord)
    else
      match FitError(acc, first, months, |months|, num)
      case Some(e) => Err(e)
      case None => Ok(Indices(acc, timescale, first, num))
  }

  function Balance(precip: seq<real>, pet: seq<real>): (r: seq<real>)
    requires |precip| == |pet|
    ensures |r| == |precip|
    ensures forall i :: 0 <= i < |r| ==> r[i] == precip[i] - pet[i]
  {
    seq(|precip|, i requires 0 <= i < |precip| => precip[i] - pet[i])
  }

  lemma {:induction false} FitErrorFree(acc: seq<Option<real>>, first: int, months: seq<int>, k: nat, num: Numerics)
    requires k <= |months| && Sound(num)
    ensures FitError(acc, first, months, k, num).None?
       <==> forall j :: 0 <= j < k ==> FitPwm(MonthValues(acc, first, months[j]), num).Ok?
  {
    hide FitPwm, MonthValues, Sound;
    if k > 0 {
      FitErrorFree(acc, first, months, k - 1, num);
    }
  }

  method Spei(precip: seq<real>, pet: seq<real>, timescale: int, first: int, minYears: int, num: Numerics)
    returns (r: Result<seq<Option<Index>>, DroughtError>)
    requires Sound(num)
    ensures |precip| != |pet| ==> r == Err(LengthMismatch)
    ensures |precip| == |pet| && timescale < 1 ==> r == Err(BadTimescale)
    ensures |precip| == |pet| && timescale >= 1 ==>
      r == SpeiOf(Rolling(Balance(precip, pet), timescale), timescale, first, minYears, num)
  {
    hide Sound, FitPwm, Cdf, Standardise, Rolling, Month, Months, MonthValues;
    if |precip| != |pet| {
      return Err(LengthMismatch);
    }
    var a := Accumulate(Balance(precip, pet), timescale);
    if a.Err? {
      return Err(a.error);
    }
    var acc := a.value;
    var months, grouped := CalendarMonthSlices(acc, first);
    assert ShortMonth(acc, first, months, minYears) <==> exists m :: m in months && |grouped[m]| < minYears;
    if exists m :: m in months && |grouped[m]| < minYears {
      return Err(ShortRecord);
    }
    var fits: map<int, (Fit, nat)> := map[];
    for k := 0 to |months|
      invariant FitError(acc, first, months, k, num).None?
      invariant forall j :: 0 <= j < k ==> months[j] in fits
      invariant forall m :: m in fits ==> m in grouped && Ok(fits[m].0) == FitPwm(grouped[m], num) && fits[m].1 == |grouped[m]|
    {
      var month := months[k];
      var fit := LogLogisticFit(grouped[month], num);
      if fit.Err? {
        FitErrorSticks(acc, first, months, k + 1, |months|, num);
        return Err(fit.error);
      }
      fits := fits[month := (fit.value, |grouped[month]|)];
    }
    var out: seq<Option<Index>> := [];
    for i := 0 to |acc|
      invariant out == Indices(acc, timescale, first, num)[..i]
    {
      if acc[i].None? {
        out := out + [None];
      } else {
        var month := Month(first, i);
        MonthSeen(acc, first, i);
        var (fit, n) := fits[month];
        FitScalePositive(grouped[month], num);
        var h := Cdf(acc[i].value, fit, num);
        out := out + [Some(Index(Standardise(h, num), timescale, month, n))];
      }
    }
    assert out == Indices(acc, timescale, first, num);
    r := Ok(out);
  }

  lemma {:induction false} FitErrorSticks(acc: seq<Option<real>>, first: int, months: seq<int>, j: nat, k: nat, num: Numerics)
    requires j <= k <= |months| && Sound(num) && FitError(acc, first, months, j, num).Some?
    ensures FitError(acc, first, months, k, num) == FitError(acc, first, months, j, num)
    decreases k
  {
    hide FitPwm, MonthValues, Sound;
    if j < k {
      FitErrorSticks(acc, first, months, j, k - 1, num);
    }
  }

  /** Exactly when a place has an index at all: every calendar month that occurs has enough years, and a
      right-skewed sample. */
  lemma SpeiExists(acc: seq<Option<real>>, timescale: int, first: int, minYears: int, num: Numerics)
    requires Sound(num)
    ensures SpeiOf(acc, timescale, first, minYears, num).Ok?
       <==> forall m :: m in Months(acc, first) ==> |MonthValues(acc, first, m)| >= minYears && Fittable(MonthValues(acc, first, m))
  {
    hide FitPwm, MonthValues, Months, Sound, Fittable, Indices;
    var months := Months(acc, first);
    FitErrorFree(acc, first, months, |months|, num);
    forall m | m in months
      ensures Fittable(MonthValues(acc, first, m)) <==> FitPwm(MonthValues(acc, first, m), num).Ok?
    {
      FitExists(MonthValues(acc, first, m), num);
    }
    forall m | m in months
      ensures exists j :: 0 <= j < |months| && months[j] == m
    {
    }
  }

  // -------------------------------------------------------- what a calendar month is

  /** The accumulations a whole number of years from position i, in time order. */
  function YearsFrom(acc: seq<Option<real>>, i: int): seq<real> {
    if acc == [] then []
    else
      var k := |acc| - 1;
      var rest := YearsFrom(acc[..k], i);
      if acc[k].Some? && (k - i) % 12 == 0 then rest + [acc[k].value] else rest
  }

  lemma SameMonth(first: int, i: nat, j: nat)
    ensures Month(first, i) == Month(first, j) <==> (j - i) % 12 == 0
  {
    SameRemainder(first - 1 + i, first - 1 + j);
  }

  lemma SameRemainder(a: int, b: int)
    ensures a % 12 == b % 12 <==> (b - a) % 12 == 0
  {
    var p, q, r := a / 12, b / 12, b % 12 - a % 12;
    assert b - a == 12 * (q - p) + r && -12 < r < 12;
    if (b - a) % 12 == 0 {
      var k := (b - a) / 12;
      assert r == 12 * (k - q + p);
    }
  }

  lemma {:induction false} MonthIsYearsApart(acc: seq<Option<real>>, first: int, i: nat)
    ensures MonthValues(acc, first, Month(first, i)) == YearsFrom(acc, i)
  {
    hide Month;
    if acc != [] {
      var k := |acc| - 1;
      MonthIsYearsApart(acc[..k], first, i);
      SameMonth(first, i, k);
    }
  }

  /** Months are numbered 1 to 12 and follow the calendar from the first one. */
  lemma MonthsAdvance(first: int, i: nat)
    ensures 1 <= Month(first, i) <= 12
    ensures Month(first, i + 1) == if Month(first, i) == 12 then 1 else Month(first, i) + 1
    ensures 1 <= first <= 12 && i % 12 == 0 ==> Month(first, i) == first
  {
  }

  /** What the result says at one position: the accumulation, read off the distribution fitted to its own
      years. */
  ghost predicate ReadsOwnYears(acc: seq<Option<real>>, i: nat, timescale: int, x: Option<Index>, num: Numerics)
    requires i < |acc| && Sound(num)
  {
    && (x.Some? <==> acc[i].Some?)
    && (x.Some? ==>
          && var years := YearsFrom(acc, i);
             && FitPwm(years, num).Ok? && FitPwm(years, num).value.alpha > 0.0
             && x.value.value == Standardise(Cdf(acc[i].value, FitPwm(years, num).value, num), num)
             && x.value.fittedOn == |years| && x.value.timescaleMonths == timescale
             && 1 <= x.value.calendarMonth <= 12)
  }

  /** The month labels of two neighbouring positions. */
  ghost predicate Consecutive(a: Option<Index>, b: Option<Index>) {
    a.Some? && b.Some? ==> b.value.calendarMonth == if a.value.calendarMonth == 12 then 1 else a.value.calendarMonth + 1
  }

  /** Each index is fitted on exactly the accumulations a whole number of years away, labelled with a
      month that follows the calendar. */
  lemma IndexReadsOwnYears(acc: seq<Option<real>>, timescale: int, first: int, minYears: int, num: Numerics, i: nat)
    requires Sound(num) && SpeiOf(acc, timescale, first, minYears, num).Ok? && i < |acc|
    ensures var r := SpeiOf(acc, timescale, first, minYears, num).value;
            && |r| == |acc|
            && ReadsOwnYears(acc, i, timescale, r[i], num)
            && (r[i].Some? ==> |YearsFrom(acc, i)| >= minYears)
            && (r[i].Some? && 1 <= first <= 12 && i % 12 == 0 ==> r[i].value.calendarMonth == first)
            && (i + 1 < |r| ==> Consecutive(r[i], r[i + 1]))
  {
    hide FitPwm, Cdf, Standardise, Month, Months, MonthValues, YearsFrom, Sound;
    MonthIsYearsApart(acc, first, i);
    MonthsAdvance(first, i);
    if acc[i].Some? {
      MonthSeen(acc, first, i);
      FitErrorFree(acc, first, Months(acc, first), |Months(acc, first)|, num);
      assert FitPwm(YearsFrom(acc, i), num).Ok?;
      FitScalePositive(YearsFrom(acc, i), num);
    }
  }

  lemma {:induction false} MonthSource(acc: seq<Option<real>>, first: int, m: int) returns (i: nat)
    requires m in Months(acc, first)
    ensures i < |acc| && acc[i].Some? && Month(first, i) == m
  {
    hide Month;
    var k := |acc| - 1;
    if acc[k].Some? && Month(first, k) == m {
      i := k;
    } else {
      i := MonthSource(acc[..k], first, m);
    }
  }

  /** The record is refused as short exactly when some position with an accumulation has fewer than the
      required number of them whole years away, itself included. */
  lemma ShortExactly(acc: seq<Option<real>>, timescale: int, first: int, minYears: int, num: Numerics)
    requires Sound(num)
    ensures SpeiOf(acc, timescale, first, minYears, num) == Err(ShortRecord)
       <==> exists i: nat :: i < |acc| && acc[i].Some? && |YearsFrom(acc, i)| < minYears
  {
    hide FitPwm, Month, Months, MonthValues, YearsFrom, Sound, Indices;
    NoShortFit(acc, first, Months(acc, first), |Months(acc, first)|, num);
    if i: nat :| i < |acc| && acc[i].Some? && |YearsFrom(acc, i)| < minYears {
      MonthSeen(acc, first, i);
      MonthIsYearsApart(acc, first, i);
    }
    if ShortMonth(acc, first, Months(acc, first), minYears) {
      var m :| m in Months(acc, first) && |MonthValues(acc, first, m)| < minYears;
      var i := MonthSource(acc, first, m);
      MonthIsYearsApart(acc, first, i);
      assert |YearsFrom(acc, i)| < minYears;
    }
  }

  lemma {:induction false} NoShortFit(acc: seq<Option<real>>, first: int, months: seq<int>, k: nat, num: Numerics)
    requires k <= |months| && Sound(num)
    ensures FitError(acc, first, months, k, num) != Some(ShortRecord)
  {
    hide Gap, Spread, Moment, Sort, MonthValues, Sound;
    if k > 0 {
      NoShortFit(acc, first, months, k - 1, num);
    }
  }

  // ------------------------------------------------------ invariance of the index

  /** Two accumulations related by x -> c*x + s. */
  ghost predicate Related(acc: seq<Option<real>>, acc': seq<Option<real>>, c: real, s: real) {
    && |acc| == |acc'|
    && forall i :: 0 <= i < |acc| ==>
         acc'[i] == if acc[i].None? then None else Some(Shifted(c, s, acc[i].value))
  }

  lemma {:induction false} WindowRelated(window: seq<real>, window': seq<real>, n: nat, c: real, s: real)
    requires |window| == |window'| == n
    requires forall i :: 0 <= i < |window| ==> window'[i] == Shifted(c, s, window[i])
    ensures Sum(window') == Shifted(c, Scale(n as real, s), Sum(window))
  {
    hide Shifted, Scale;
    if n == 0 {
      ShiftedZero(c, s);
    } else {
      WindowRelated(window[..n - 1], window'[..n - 1], n - 1, c, s);
      ShiftedStep(c, s, n, Sum(window[..n - 1]), window[n - 1]);
      assert Sum(window) == Sum(window[..n - 1]) + window[n - 1];
      assert Sum(window') == Sum(window'[..n - 1]) + window'[n - 1];
    }
  }

  lemma ShiftedZero(c: real, s: real)
    ensures Shifted(c, Scale(0 as real, s), 0.0) == 0.0
  {
  }

  lemma ShiftedStep(c: real, s: real, n: nat, total: real, x: real)
    requires n > 0
    ensures Shifted(c, Scale((n - 1) as real, s), total) + Shifted(c, s, x) == Shifted(c, Scale(n as real, s), total + x)
  {
    var m := (n - 1) as real;
    assert (m + 1.0) * s == m * s + s;
    assert c * (total + x) == c * total + c * x;
  }

  /** Rescaling and shifting the monthly balance rescales and shifts the accumulations. */
  lemma RollingRelated(b: seq<real>, b': seq<real>, timescale: int, c: real, s: real)
    requires timescale >= 1 && |b| == |b'|
    requires forall i :: 0 <= i < |b| ==> b'[i] == Shifted(c, s, b[i])
    ensures Related(Rolling(b, timescale), Rolling(b', timescale), c, Scale(timescale as real, s))
  {
    hide Shifted, Sum, Scale;
    forall i | 0 <= i < |b| && i + 1 >= timescale
      ensures Rolling(b', timescale)[i] == Some(Shifted(c, Scale(timescale as real, s), Rolling(b, timescale)[i].value))
    {
      var lo := i + 1 - timescale;
      WindowRelated(b[lo..i + 1], b'[lo..i + 1], timescale, c, s);
    }
  }

  lemma {:induction false} MonthsRelated(acc: seq<Option<real>>, acc': seq<Option<real>>, first: int, c: real, s: real)
    requires Related(acc, acc', c, s)
    ensures Months(acc', first) == Months(acc, first)
  {
    hide Shifted, Month;
    if acc != [] {
      var k := |acc| - 1;
      MonthsRelated(acc[..k], acc'[..k], first, c, s);
    }
  }

  lemma {:induction false} MonthValuesRelated(acc: seq<Option<real>>, acc': seq<Option<real>>, first: int, month: int, c: real, s: real)
    requires Related(acc, acc', c, s)
    ensures MonthValues(acc', first, month) == Map(MonthValues(acc, first, month), Affine(c, s))
  {
    hide Shifted, Month;
    if acc != [] {
      var k := |acc| - 1;
      MonthValuesRelated(acc[..k], acc'[..k], first, month, c, s);
      assert acc'[k].Some? ==> acc'[k].value == Affine(c, s)(acc[k].value);
    }
  }

  lemma IndexRelated(acc: seq<Option<real>>, acc': seq<Option<real>>, timescale: int, first: int, i: nat, c: real, s: real, num: Numerics)
    requires Sound(num) && c > 0.0 && Related(acc, acc', c, s) && i < |acc|
    requires acc[i].Some? ==> GuardAgrees(MonthValues(acc, first, Month(first, i)), c)
    ensures IndexAt(acc', timescale, first, i, num) == IndexAt(acc, timescale, first, i, num)
  {
    hide Shifted, Month, MonthValues, Standardise, Cdf, Sound, GuardAgrees, FitPwm, Scale;
    if acc[i].Some? {
      var month := Month(first, i);
      var values := MonthValues(acc, first, month);
      MonthValuesRelated(acc, acc', first, month, c, s);
      FitFollowsSample(values, c, s, num);
      match FitPwm(values, num)
      case Err(_) =>
      case Ok(fit) =>
        FitScalePositive(values, num);
        CdfInvariant(acc[i].value, fit, c, s, num);
    }
  }

  /** Every month's rescaled sample still clears the absolute spread guard. */
  ghost predicate AllSpread(acc: seq<Option<real>>, first: int, c: real) {
    forall m :: m in Months(acc, first) ==> ClearsGuard(MonthValues(acc, first, m), c)
  }

  predicate ClearsGuard(values: seq<real>, c: real) {
    |values| >= 4 && !Spreadless(values, c)
  }

  lemma FittedClears(values: seq<real>, c: real, s: real, num: Numerics)
    requires Sound(num) && c > 0.0 && FitPwm(values, num).Ok?
    ensures ClearsGuard(values, c) <==> GuardAgrees(values, c)
    ensures ClearsGuard(values, c) <==> FitPwm(Map(values, Affine(c, s)), num).Ok?
  {
    hide Gap, Sort, Moment, Affine, FitWith, Spread, Scale, Map, Shifted;
    FitFollowsSample(values, c, s, num);
    if !ClearsGuard(values, c) {
      AffineSpread(values, c, s);
    }
  }

  /** Comparable across places: an index that exists is unchanged by rescaling (c > 0) and shifting
      the monthly water balance, exactly when every month's rescaled sample clears the spread guard. */
  lemma SpeiInvariance(acc: seq<Option<real>>, acc': seq<Option<real>>, timescale: int, first: int, minYears: int,
                       c: real, s: real, num: Numerics)
    requires Sound(num) && c > 0.0 && Related(acc, acc', c, s)
    requires SpeiOf(acc, timescale, first, minYears, num).Ok?
    ensures SpeiOf(acc', timescale, first, minYears, num) == SpeiOf(acc, timescale, first, minYears, num)
       <==> AllSpread(acc, first, c)
  {
    hide Shifted, Month, MonthValues, Months, IndexAt, Sound, FitPwm, ClearsGuard, Related, GuardAgrees, Affine, Map;
    var months := Months(acc, first);
    MonthsRelated(acc, acc', first, c, s);
    FitErrorFree(acc, first, months, |months|, num);
    FitErrorFree(acc', first, months, |months|, num);
    forall m | m in months
      ensures |MonthValues(acc', first, m)| == |MonthValues(acc, first, m)|
      ensures ClearsGuard(MonthValues(acc, first, m), c) <==> GuardAgrees(MonthValues(acc, first, m), c)
      ensures ClearsGuard(MonthValues(acc, first, m), c) <==> FitPwm(MonthValues(acc', first, m), num).Ok?
    {
      var j :| 0 <= j < |months| && months[j] == m;
      MonthValuesRelated(acc, acc', first, m, c, s);
      FittedClears(MonthValues(acc, first, m), c, s, num);
    }
    assert SameLength(acc, acc') by { RelatedLength(acc, acc', c, s); }
    if AllSpread(acc, first, c) {
      forall i: nat | i < |acc|
        ensures IndexAt(acc', timescale, first, i, num) == IndexAt(acc, timescale, first, i, num)
      {
        if acc[i].Some? {
          MonthSeen(acc, first, i);
        }
        IndexRelated(acc, acc', timescale, first, i, c, s, num);
      }
      assert Indices(acc', timescale, first, num) == Indices(acc, timescale, first, num);
      assert FitError(acc', first, months, |months|, num).None?;
    } else {
      assert FitError(acc', first, months, |months|, num).Some?;
    }
  }

  predicate SameLength(acc: seq<Option<real>>, acc': seq<Option<real>>) {
    |acc| == |acc'|
  }

  lemma RelatedLength(acc: seq<Option<real>>, acc': seq<Option<real>>, c: real, s: real)
    requires Related(acc, acc', c, s)
    ensures |acc| == |acc'|
  {
  }

  /** The same over the monthly series themselves. */
  lemma ComparableAcrossPlaces(precip: seq<real>, pet: seq<real>, precip': seq<real>, pet': seq<real>,
                               timescale: int, first: int, minYears: int, c: real, s: real, num: Numerics)
    requires Sound(num) && c > 0.0 && timescale >= 1
    requires |precip| == |pet| == |precip'| == |pet'|
    requires forall i :: 0 <= i < |precip| ==> precip'[i] - pet'[i] == Shifted(c, s, precip[i] - pet[i])
    requires SpeiOf(Rolling(Balance(precip, pet), timescale), timescale, first, minYears, num).Ok?
    ensures SpeiOf(Rolling(Balance(precip', pet'), timescale), timescale, first, minYears, num)
         == SpeiOf(Rolling(Balance(precip, pet), timescale), timescale, first, minYears, num)
       <==> AllSpread(Rolling(Balance(precip, pet), timescale), first, c)
  {
    hide Shifted, SpeiOf, AllSpread, Scale, Rolling;
    var b, b' := Balance(precip, pet), Balance(precip', pet');
    RollingRelated(b, b', timescale, c, s);
    SpeiInvariance(Rolling(b, timescale), Rolling(b', timescale), timescale, first, minYears, c, Scale(timescale as real, s), num);
  }

  lemma TinyScale(spread: real) returns (c: real)
    requires Abs(spread) >= TINY_SPREAD
    ensures c > 0.0 && Abs(Scale(c, spread)) < TINY_SPREAD
  {
    var a := Abs(spread);
    c := TINY_SPREAD / 2.0 / a;
    assert c * a == TINY_SPREAD / 2.0;
    assert Abs(c * spread) == c * a;
  }

  /** The guard is in the data's units: every index that covers a month is lost under some rescaling. */
  lemma SomeUnitsLoseTheIndex(acc: seq<Option<real>>, timescale: int, first: int, minYears: int, num: Numerics) returns (c: real)
    requires Sound(num) && SpeiOf(acc, timescale, first, minYears, num).Ok? && Months(acc, first) != []
    ensures c > 0.0 && !AllSpread(acc, first, c)
  {
    hide Months, MonthValues, Spread, Scale, Abs, Gap, FitWith;
    var months := Months(acc, first);
    FitErrorFree(acc, first, months, |months|, num);
    var values := MonthValues(acc, first, months[0]);
    assert FitPwm(values, num).Ok?;
    c := TinyScale(Spread(values));
    assert Spreadless(values, c);
  }

  /** Within a calendar month the index never falls as the accumulation rises. */
  lemma SpeiMonotone(acc: seq<Option<real>>, timescale: int, first: int, i: nat, j: nat, num: Numerics)
    requires Sound(num) && Monotone(num)
    requires i < |acc| && j < |acc| && acc[i].Some? && acc[j].Some?
    requires Month(first, i) == Month(first, j) && acc[i].value <= acc[j].value
    requires FitPwm(MonthValues(acc, first, Month(first, i)), num).Ok?
    ensures IndexAt(acc, timescale, first, i, num).Some? && IndexAt(acc, timescale, first, j, num).Some?
    ensures IndexAt(acc, timescale, first, i, num).value.value <= IndexAt(acc, timescale, first, j, num).value.value
  {
    hide FitPwm, Cdf, Standardise, Month, MonthValues, Sound, Monotone;
    var values := MonthValues(acc, first, Month(first, i));
    var fit := FitPwm(values, num).value;
    FitScalePositive(values, num);
    CdfMonotone(acc[i].value, acc[j].value, fit, num);
    StandardiseMonotone(Cdf(acc[i].value, fit, num), Cdf(acc[j].value, fit, num), num);
  }
}
