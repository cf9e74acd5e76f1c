/** The loan panel: one row per account, features before the observation month, label after it
    (tools/train_survival.py). */
module Panel {
  import opened Wrappers
  import opened Sorting

  datatype Month = Month(age: int, dlq: Option<int>, upb: Option<real>)

  /** Origination fields, copied from the loan's first usable row. */
  datatype Static = Static(numbers: seq<Option<real>>, firstTime: bool, purpose: string, state: string)

  /** One parsed line: unusable when it has too few columns or no age. */
  datatype Row = Unusable | Row(loan: string, month: Month, fields: Static)

  datatype Features = Features(dlqMax: int, dlqMean: real, dlqLast: int, everLate: bool, dlqTrend: int,
                               monthsObserved: nat, upbLast: Option<real>, paidFraction: Option<real>)

  datatype Record = Record(loan: string, fields: Static, features: Features, defaulted: bool, lead: Option<int>)

  /** The observation month, the horizon, and the delinquency that counts as default. */
  datatype Window = Window(observe: int, horizon: int, defaultDlq: int)

  predicate AgeLe(a: Month, b: Month) {
    a.age <= b.age
  }

  predicate IsPre(w: Window, m: Month) {
    m.age <= w.observe
  }

  predicate IsPost(w: Window, m: Month) {
    w.observe < m.age <= w.observe + w.horizon
  }

  predicate IsBad(w: Window, m: Month) {
    m.dlq.Some? && m.dlq.value >= w.defaultDlq
  }

  function PreTest(w: Window): Month -> bool {
    m => IsPre(w, m)
  }

  function PostTest(w: Window): Month -> bool {
    m => IsPost(w, m)
  }

  function Pre(w: Window, months: seq<Month>): seq<Month> {
    Filter(Sort(months, AgeLe), PreTest(w))
  }

  function Post(w: Window, months: seq<Month>): seq<Month> {
    Filter(Sort(months, AgeLe), PostTest(w))
  }

  function Dlqs(months: seq<Month>): seq<int> {
    if months == [] then []
    else
      var rest := Dlqs(months[..|months| - 1]);
      match months[|months| - 1].dlq
      case None => rest
      case Some(d) => rest + [d]
  }

  function Upbs(months: seq<Month>): seq<real> {
    if months == [] then []
    else
      var rest := Upbs(months[..|months| - 1]);
      match months[|months| - 1].upb
      case None => rest
      case Some(u) => rest + [u]
  }

  function MaxOf(v: seq<int>): int
    requires v != []
  {
    if |v| == 1 then v[0]
    else
      var m := MaxOf(v[..|v| - 1]);
      if v[|v| - 1] > m then v[|v| - 1] else m
  }

  function Total(v: seq<int>): int {
    if v == [] then 0 else Total(v[..|v| - 1]) + v[|v| - 1]
  }

  /** The age of the first defaulting month, in list order. */
  function FirstBad(w: Window, post: seq<Month>): Option<int> {
    if post == [] then None
    else if IsBad(w, post[0]) then Some(post[0].age)
    else FirstBad(w, post[1..])
  }

  function Mean(v: seq<int>): real
    requires v != []
  {
    Total(v) as real / |v| as real
  }

  /** The share of the first balance that has been paid; None without a balance to divide by. */
  function PaidFraction(upbs: seq<real>): Option<real> {
    if upbs == [] || upbs[0] == 0.0 then None else Some((upbs[0] - upbs[|upbs| - 1]) / upbs[0])
  }

  function FeaturesOf(pre: seq<Month>): Features
    requires Dlqs(pre) != []
  {
    var dlqs, upbs := Dlqs(pre), Upbs(pre);
    Features(MaxOf(dlqs), Mean(dlqs), dlqs[|dlqs| - 1], MaxOf(dlqs) >= 1, dlqs[|dlqs| - 1] - dlqs[0], |pre|,
             if upbs == [] then None else Some(upbs[|upbs| - 1]), PaidFraction(upbs))
  }

  /** One account's panel row, or nothing when it cannot be observed. */
  function RecordOf(w: Window, loan: string, fields: Static, months: seq<Month>): Option<Record> {
    var pre, post := Pre(w, months), Post(w, months);
    if |pre| < 3 || post == [] then None
    else if Dlqs(pre) == [] then None
    else if MaxOf(Dlqs(pre)) >= w.defaultDlq then None
    else
      var bad := FirstBad(w, post);
      var lead := if bad.Some? && bad.value != 0 then Some(bad.value - w.observe) else None;
      Some(Record(loan, fields, FeaturesOf(pre), bad.Some?, lead))
  }

  // ---------------------------------------------------------------- no look-ahead

  lemma AgePreorder()
    ensures TotalPreorder(AgeLe)
  {
  }

  /** The rows of a history that fall before, or inside, the outcome window; unsorted. */
  function Before(w: Window, months: seq<Month>): seq<Month> {
    Filter(months, PreTest(w))
  }

  function Inside(w: Window, months: seq<Month>): seq<Month> {
    Filter(months, PostTest(w))
  }

  lemma SortedParts(w: Window, months: seq<Month>)
    ensures Pre(w, months) == Sort(Before(w, months), AgeLe)
    ensures Post(w, months) == Sort(Inside(w, months), AgeLe)
  {
    AgePreorder();
    FilterSort(months, AgeLe, PreTest(w));
    FilterSort(months, AgeLe, PostTest(w));
  }

  // ------------------------------------------------------------- label and lead time

  lemma {:induction false} FirstBadFacts(w: Window, post: seq<Month>)
    requires Sorted(post, AgeLe)
    ensures FirstBad(w, post).None? <==> forall i :: 0 <= i < |post| ==> !IsBad(w, post[i])
    ensures FirstBad(w, post).Some? ==>
      exists i :: 0 <= i < |post| && IsBad(w, post[i]) && post[i].age == FirstBad(w, post).value
    ensures FirstBad(w, post).Some? ==>
      forall i :: 0 <= i < |post| && IsBad(w, post[i]) ==> FirstBad(w, post).value <= post[i].age
  {
    if post != [] {
      if IsBad(w, post[0]) {
        forall i | 0 <= i < |post|
          ensures post[0].age <= post[i].age
        {
          if i > 0 {
            assert AgeLe(post[0], post[i]);
          }
        }
      } else {
        var rest := post[1..];
        forall i, j | 0 <= i < j < |rest|
          ensures AgeLe(rest[i], rest[j])
        {
          assert AgeLe(post[i + 1], post[j + 1]);
        }
        FirstBadFacts(w, rest);
        assert forall i :: 0 < i < |post| ==> post[i] == rest[i - 1];
      }
    }
  }

  /** m is a month of the history, after the observation month and within the horizon, at or past default. */
  predicate Defaults(w: Window, months: seq<Month>, m: Month) {
    m in months && w.observe < m.age <= w.observe + w.horizon && m.dlq.Some? && m.dlq.value >= w.defaultDlq
  }

  lemma PostMembers(w: Window, months: seq<Month>, m: Month)
    ensures m in Post(w, months) <==> m in months && IsPost(w, m)
  {
    FilterMembers(Sort(months, AgeLe), PostTest(w), m);
    SortMembers(months, AgeLe, m);
  }

  lemma PostSorted(w: Window, months: seq<Month>)
    ensures Sorted(Post(w, months), AgeLe)
  {
    AgePreorder();
    SortedParts(w, months);
    SortSorted(Inside(w, months), AgeLe);
  }

  lemma FirstBadIsEarliest(w: Window, months: seq<Month>)
    ensures FirstBad(w, Post(w, months)).Some? <==> exists m :: Defaults(w, months, m)
    ensures FirstBad(w, Post(w, months)).Some? ==> exists m :: Defaults(w, months, m) && m.age == FirstBad(w, Post(w, months)).value
    ensures FirstBad(w, Post(w, months)).Some? ==>
      forall m :: Defaults(w, months, m) ==> FirstBad(w, Post(w, months)).value <= m.age
  {
    hide Post;
    var post := Post(w, months);
    PostSorted(w, months);
    FirstBadFacts(w, post);
    forall m
      ensures Defaults(w, months, m) <==> m in post && IsBad(w, m)
    {
      PostMembers(w, months, m);
    }
    if FirstBad(w, post).Some? {
      var i :| 0 <= i < |post| && IsBad(w, post[i]) && post[i].age == FirstBad(w, post).value;
      assert Defaults(w, months, post[i]);
    }
  }

  // ------------------------------------------------------------ what a record depends on

  lemma SortForgetsOrder(s: seq<Month>, t: seq<Month>)
    requires multiset(s) == multiset(t) && NoTies(s, AgeLe)
    ensures Sort(s, AgeLe) == Sort(t, AgeLe)
  {
    AgePreorder();
    SortSorted(s, AgeLe);
    SortSorted(t, AgeLe);
    SortPermutes(s, AgeLe);
    SortPermutes(t, AgeLe);
    forall x | x in Sort(s, AgeLe)
      ensures x in s
    {
      SortMembers(s, AgeLe, x);
    }
    SortedUnique(Sort(s, AgeLe), Sort(t, AgeLe), AgeLe);
  }

  /** The same rows up to the observation month, in any order if no two different ones tie. */
  ghost predicate SamePast(w: Window, h1: seq<Month>, h2: seq<Month>) {
    Before(w, h1) == Before(w, h2) || (multiset(Before(w, h1)) == multiset(Before(w, h2)) && NoTies(Before(w, h1), AgeLe))
  }

  /** The same months inside the outcome window. */
  ghost predicate SameWindow(w: Window, h1: seq<Month>, h2: seq<Month>) {
    forall m :: m in Inside(w, h1) <==> m in Inside(w, h2)
  }

  lemma SameDefaults(w: Window, h1: seq<Month>, h2: seq<Month>)
    requires SameWindow(w, h1, h2)
    ensures forall m :: Defaults(w, h1, m) <==> Defaults(w, h2, m)
  {
    forall m
      ensures Defaults(w, h1, m) <==> Defaults(w, h2, m)
    {
      FilterMembers(h1, PostTest(w), m);
      FilterMembers(h2, PostTest(w), m);
      assert m in Inside(w, h1) <==> m in h1 && IsPost(w, m);
      assert m in Inside(w, h2) <==> m in h2 && IsPost(w, m);
    }
  }

  lemma SameFirstBad(w: Window, h1: seq<Month>, h2: seq<Month>)
    requires SameWindow(w, h1, h2)
    ensures FirstBad(w, Post(w, h1)) == FirstBad(w, Post(w, h2))
  {
    hide FirstBad, Post, Defaults;
    SameDefaults(w, h1, h2);
    FirstBadIsEarliest(w, h1);
    FirstBadIsEarliest(w, h2);
  }

  lemma SamePre(w: Window, h1: seq<Month>, h2: seq<Month>)
    requires SamePast(w, h1, h2)
    ensures Pre(w, h1) == Pre(w, h2)
  {
    hide Before, Pre, NoTies;
    SortedParts(w, h1);
    SortedParts(w, h2);
    if Before(w, h1) != Before(w, h2) {
      SortForgetsOrder(Before(w, h1), Before(w, h2));
    }
  }

  lemma RecordParts(w: Window, loan: string, fields: Static, months: seq<Month>)
    requires RecordOf(w, loan, fields, months).Some?
    ensures Dlqs(Pre(w, months)) != []
    ensures var r, bad := RecordOf(w, loan, fields, months).value, FirstBad(w, Post(w, months));
            && r.features == FeaturesOf(Pre(w, months))
            && r.defaulted == bad.Some?
            && r.lead == if bad.Some? && bad.value != 0 then Some(bad.value - w.observe) else None
  {
    hide Pre, Post, FirstBad, FeaturesOf, Dlqs;
  }

  /** Non-interference: the behavioural features depend on the months up to the observation month alone,
      and the outcome on those inside its window. The order of the rows matters to neither, except that
      of different rows for one age to the features. */
  lemma NoLookAhead(w: Window, loan: string, fields: Static, h1: seq<Month>, h2: seq<Month>)
    requires RecordOf(w, loan, fields, h1).Some? && RecordOf(w, loan, fields, h2).Some?
    ensures SamePast(w, h1, h2) ==>
      RecordOf(w, loan, fields, h1).value.features == RecordOf(w, loan, fields, h2).value.features
    ensures SameWindow(w, h1, h2) ==>
      RecordOf(w, loan, fields, h1).value.defaulted == RecordOf(w, loan, fields, h2).value.defaulted
      && RecordOf(w, loan, fields, h1).value.lead == RecordOf(w, loan, fields, h2).value.lead
  {
    hide RecordOf, Pre, Post, FirstBad, FeaturesOf, Dlqs, SamePast, SameWindow;
    RecordParts(w, loan, fields, h1);
    RecordParts(w, loan, fields, h2);
    if SamePast(w, h1, h2) {
      SamePre(w, h1, h2);
    }
    if SameWindow(w, h1, h2) {
      SameFirstBad(w, h1, h2);
    }
  }

  /** The order of a loan's rows in the file does not matter to its record, as long as no age has two
      different rows. */
  lemma RowOrderIrrelevant(w: Window, loan: string, fields: Static, h1: seq<Month>, h2: seq<Month>)
    requires multiset(h1) == multiset(h2) && NoTies(h1, AgeLe)
    ensures RecordOf(w, loan, fields, h1) == RecordOf(w, loan, fields, h2)
  {
    hide FirstBad, FeaturesOf, NoTies;
    SortForgetsOrder(h1, h2);
  }

  /** The label is set exactly when some month of the window defaults; a lead time, when present, is the
      earliest default's offset, between 1 and the horizon. */
  lemma LabelAndLead(w: Window, loan: string, fields: Static, months: seq<Month>)
    requires RecordOf(w, loan, fields, months).Some?
    ensures var r := RecordOf(w, loan, fields, months).value;
            && (r.defaulted <==> exists m :: Defaults(w, months, m))
            && (r.lead.Some? ==>
                  && 1 <= r.lead.value <= w.horizon
                  && (exists m :: Defaults(w, months, m) && m.age == w.observe + r.lead.value)
                  && forall m :: Defaults(w, months, m) ==> w.observe + r.lead.value <= m.age)
  {
    hide Post, Pre, FeaturesOf;
    FirstBadIsEarliest(w, months);
  }

  lemma {:induction false} TotalAtMost(v: seq<int>, x: int)
    requires forall i :: 0 <= i < |v| ==> v[i] <= x
    ensures Total(v) <= |v| * x
  {
    if v != [] {
      TotalAtMost(v[..|v| - 1], x);
    }
  }

  lemma {:induction false} MaxIsGreatest(v: seq<int>)
    requires v != []
    ensures MaxOf(v) in v && forall i :: 0 <= i < |v| ==> v[i] <= MaxOf(v)
  {
    if |v| > 1 {
      var n := |v| - 1;
      MaxIsGreatest(v[..n]);
      assert v == v[..n] + [v[n]];
    }
  }

  lemma MeanAtMost(v: seq<int>, x: int)
    requires v != [] && forall i :: 0 <= i < |v| ==> v[i] <= x
    ensures Mean(v) <= x as real
  {
    TotalAtMost(v, x);
    assert Total(v) as real <= |v| as real * x as real;
  }

  /** A panel row comes from at least three observed months, none of them in default: the worst
      delinquency is one that was observed, bounds the last and the mean, and sets the ever-late flag. */
  lemma FeaturesObserved(w: Window, loan: string, fields: Static, months: seq<Month>)
    requires RecordOf(w, loan, fields, months).Some?
    ensures var f, dlqs := RecordOf(w, loan, fields, months).value.features, Dlqs(Pre(w, months));
            && f.monthsObserved == |Pre(w, months)| >= 3
            && f.dlqMax in dlqs && f.dlqMax < w.defaultDlq
            && (f.everLate <==> exists i :: 0 <= i < |dlqs| && dlqs[i] >= 1)
            && f.dlqLast <= f.dlqMax && f.dlqMean <= f.dlqMax as real
  {
    hide Pre, Post, Dlqs, Upbs, FirstBad, Mean, PaidFraction;
    var dlqs := Dlqs(Pre(w, months));
    MaxIsGreatest(dlqs);
    MeanAtMost(dlqs, MaxOf(dlqs));
  }

  // ---------------------------------------------------- the features, from the rows themselves

  lemma PreMembers(w: Window, months: seq<Month>, m: Month)
    ensures m in Pre(w, months) <==> m in months && m.age <= w.observe
  {
    FilterMembers(Sort(months, AgeLe), PreTest(w), m);
    SortMembers(months, AgeLe, m);
  }

  lemma PreSorted(w: Window, months: seq<Month>)
    ensures Sorted(Pre(w, months), AgeLe)
  {
    AgePreorder();
    SortedParts(w, months);
    SortSorted(Before(w, months), AgeLe);
  }

  /** The months kept are those up to the observation month, each position counted once. */
  lemma {:induction false} BeforeCount(w: Window, months: seq<Month>)
    ensures |Before(w, months)| == |set i | 0 <= i < |months| && months[i].age <= w.observe|
  {
    var at := set i | 0 <= i < |months| && months[i].age <= w.observe;
    if months == [] {
      assert at == {};
    } else {
      var k := |months| - 1;
      BeforeCount(w, months[..k]);
      var front := set i | 0 <= i < |months[..k]| && months[..k][i].age <= w.observe;
      assert at == if months[k].age <= w.observe then front + {k} else front;
    }
  }

  lemma {:induction false} DlqMembers(months: seq<Month>, d: int)
    ensures d in Dlqs(months) <==> exists m :: m in months && m.dlq == Some(d)
  {
    if months != [] {
      var k := |months| - 1;
      DlqMembers(months[..k], d);
      assert months == months[..k] + [months[k]];
    }
  }

  /** An account has a row exactly when at least three of its months are at or before the observation
      month, one falls in the outcome window, the delinquency of one observed month is known, and no
      known one had reached default. */
  ghost predicate Observable(w: Window, months: seq<Month>) {
    && |set i | 0 <= i < |months| && months[i].age <= w.observe| >= 3
    && (exists m :: m in months && w.observe < m.age <= w.observe + w.horizon)
    && (exists m :: m in months && m.age <= w.observe && m.dlq.Some?)
    && (forall m :: m in months && m.age <= w.observe && m.dlq.Some? ==> m.dlq.value < w.defaultDlq)
  }

  lemma ObservableExactly(w: Window, loan: string, fields: Static, months: seq<Month>)
    ensures RecordOf(w, loan, fields, months).Some? <==> Observable(w, months)
    ensures var r := RecordOf(w, loan, fields, months);
            r.Some? ==>
              && r.value.loan == loan && r.value.fields == fields
              && r.value.features.monthsObserved == |set i | 0 <= i < |months| && months[i].age <= w.observe|
  {
    hide Pre, Post, Dlqs, FirstBad, FeaturesOf, MaxOf;
    var pre, post := Pre(w, months), Post(w, months);
    var dlqs := Dlqs(pre);
    SortedParts(w, months);
    BeforeCount(w, months);
    if post != [] {
      PostMembers(w, months, post[0]);
    }
    forall m | m in months && w.observe < m.age <= w.observe + w.horizon
      ensures post != []
    {
      PostMembers(w, months, m);
    }
    KnownBefore(w, months);
    if dlqs != [] {
      MaxIsGreatest(dlqs);
      MonthsCounted(pre);
    }
  }

  lemma MonthsCounted(pre: seq<Month>)
    requires Dlqs(pre) != []
    ensures FeaturesOf(pre).monthsObserved == |pre|
  {
  }

  /** The known delinquencies of Pre are those of the months up to the observation month. */
  lemma KnownBefore(w: Window, months: seq<Month>)
    ensures forall d :: d in Dlqs(Pre(w, months)) <==> exists m :: m in months && m.age <= w.observe && m.dlq == Some(d)
  {
    hide Pre;
    forall d
      ensures d in Dlqs(Pre(w, months)) <==> exists m :: m in months && m.age <= w.observe && m.dlq == Some(d)
    {
      DlqMembers(Pre(w, months), d);
      forall m
        ensures m in Pre(w, months) <==> m in months && m.age <= w.observe
      {
        PreMembers(w, months, m);
      }
    }
  }

  /** m is the earliest, or the latest, of the months up to the observation month that satisfy `known`. */
  ghost predicate Earliest(w: Window, months: seq<Month>, known: Month -> bool, m: Month) {
    && m in months && m.age <= w.observe && known(m)
    && forall n :: n in months && n.age <= w.observe && known(n) ==> m.age <= n.age
  }

  ghost predicate Latest(w: Window, months: seq<Month>, known: Month -> bool, m: Month) {
    && m in months && m.age <= w.observe && known(m)
    && forall n :: n in months && n.age <= w.observe && known(n) ==> n.age <= m.age
  }

  function KnownDlq(): Month -> bool {
    (m: Month) => m.dlq.Some?
  }

  function KnownUpb(): Month -> bool {
    (m: Month) => m.upb.Some?
  }

  /** The first and the last element of s that satisfy `known`. */
  ghost predicate Ends(s: seq<Month>, known: Month -> bool, first: Month, last: Month) {
    exists i, j :: EndsAt(s, known, i, j) && s[i] == first && s[j] == last
  }

  ghost predicate EndsAt(s: seq<Month>, known: Month -> bool, i: int, j: int) {
    && 0 <= i <= j < |s| && known(s[i]) && known(s[j])
    && (forall k :: 0 <= k < i ==> !known(s[k])) && (forall k :: j < k < |s| ==> !known(s[k]))
  }

  lemma {:induction false} DlqEnds(s: seq<Month>)
    requires Dlqs(s) != []
    ensures exists first: Month, last: Month :: Ends(s, KnownDlq(), first, last)
              && first.dlq == Some(Dlqs(s)[0]) && last.dlq == Some(Dlqs(s)[|Dlqs(s)| - 1])
  {
    var k := |s| - 1;
    if Dlqs(s[..k]) == [] {
      forall j | 0 <= j < k
        ensures !KnownDlq()(s[j])
      {
        if s[j].dlq.Some? {
          assert s[..k][j] == s[j];
          DlqMembers(s[..k], s[j].dlq.value);
        }
      }
      assert EndsAt(s, KnownDlq(), k, k);
    } else {
      DlqEnds(s[..k]);
      var first, last :| Ends(s[..k], KnownDlq(), first, last)
        && first.dlq == Some(Dlqs(s[..k])[0]) && last.dlq == Some(Dlqs(s[..k])[|Dlqs(s[..k])| - 1]);
      EndsExtend(s, KnownDlq(), first, last);
    }
  }

  /** One more element is the last known one if it is known. */
  lemma EndsExtend(s: seq<Month>, known: Month -> bool, first: Month, last: Month)
    requires s != [] && Ends(s[..|s| - 1], known, first, last)
    ensures Ends(s, known, first, if known(s[|s| - 1]) then s[|s| - 1] else last)
  {
    var k := |s| - 1;
    var i, j :| EndsAt(s[..k], known, i, j) && s[..k][i] == first && s[..k][j] == last;
    EndsAtExtend(s, known, i, j);
  }

  lemma EndsAtExtend(s: seq<Month>, known: Month -> bool, i: int, j: int)
    requires s != [] && EndsAt(s[..|s| - 1], known, i, j)
    ensures EndsAt(s, known, i, if known(s[|s| - 1]) then |s| - 1 else j)
  {
    var k := |s| - 1;
    assert forall n :: 0 <= n < k ==> s[..k][n] == s[n];
  }

  lemma {:induction false} UpbMembers(months: seq<Month>, u: real)
    ensures u in Upbs(months) <==> exists m :: m in months && m.upb == Some(u)
  {
    if months != [] {
      var k := |months| - 1;
      UpbMembers(months[..k], u);
      assert months == months[..k] + [months[k]];
    }
  }

  lemma {:induction false} UpbEnds(s: seq<Month>)
    requires Upbs(s) != []
    ensures exists first: Month, last: Month :: Ends(s, KnownUpb(), first, last)
              && first.upb == Some(Upbs(s)[0]) && last.upb == Some(Upbs(s)[|Upbs(s)| - 1])
  {
    var k := |s| - 1;
    if Upbs(s[..k]) == [] {
      forall j | 0 <= j < k
        ensures !KnownUpb()(s[j])
      {
        if s[j].upb.Some? {
          assert s[..k][j] == s[j];
          UpbMembers(s[..k], s[j].upb.value);
        }
      }
      assert EndsAt(s, KnownUpb(), k, k);
    } else {
      UpbEnds(s[..k]);
      var first, last :| Ends(s[..k], KnownUpb(), first, last)
        && first.upb == Some(Upbs(s[..k])[0]) && last.upb == Some(Upbs(s[..k])[|Upbs(s[..k])| - 1]);
      EndsExtend(s, KnownUpb(), first, last);
    }
  }

  /** In age order the ends are the earliest and the latest. */
  lemma EndsAreExtreme(w: Window, months: seq<Month>, known: Month -> bool, first: Month, last: Month)
    requires Ends(Pre(w, months), known, first, last)
    ensures Earliest(w, months, known, first) && Latest(w, months, known, last)
  {
    hide Pre;
    var s := Pre(w, months);
    PreSorted(w, months);
    PreMembers(w, months, first);
    PreMembers(w, months, last);
    var i, j :| EndsAt(s, known, i, j) && s[i] == first && s[j] == last;
    forall n | n in months && n.age <= w.observe && known(n)
      ensures first.age <= n.age <= last.age
    {
      PreMembers(w, months, n);
      var k :| 0 <= k < |s| && s[k] == n;
      assert i < k ==> AgeLe(s[i], s[k]);
      assert k < j ==> AgeLe(s[k], s[j]);
    }
  }

  /** What the delinquency features mean: the worst is the largest known delinquency up to the
      observation month, the last one is a latest known one, and the trend is that minus an earliest
      known one. */
  lemma DelinquencyFeatures(w: Window, loan: string, fields: Static, months: seq<Month>)
    requires RecordOf(w, loan, fields, months).Some?
    ensures var f := RecordOf(w, loan, fields, months).value.features;
            && (exists m :: m in months && m.age <= w.observe && m.dlq == Some(f.dlqMax))
            && (forall m :: m in months && m.age <= w.observe && m.dlq.Some? ==> m.dlq.value <= f.dlqMax)
            && (f.everLate <==> exists m :: m in months && m.age <= w.observe && m.dlq.Some? && m.dlq.value >= 1)
            && exists first, last ::
                 && Earliest(w, months, KnownDlq(), first) && Latest(w, months, KnownDlq(), last)
                 && last.dlq == Some(f.dlqLast) && first.dlq == Some(f.dlqLast - f.dlqTrend)
  {
    hide RecordOf, Pre, Dlqs, Upbs, Ends, MaxOf, Mean, PaidFraction, Earliest, Latest;
    RecordParts(w, loan, fields, months);
    var pre := Pre(w, months);
    var dlqs := Dlqs(pre);
    KnownBefore(w, months);
    MaxIsGreatest(dlqs);
    forall m | m in months && m.age <= w.observe && m.dlq.Some?
      ensures m.dlq.value <= MaxOf(dlqs)
    {
      PreMembers(w, months, m);
      DlqMembers(pre, m.dlq.value);
    }
    DlqEnds(pre);
    var first, last :| Ends(pre, KnownDlq(), first, last) && first.dlq == Some(dlqs[0]) && last.dlq == Some(dlqs[|dlqs| - 1]);
    EndsAreExtreme(w, months, KnownDlq(), first, last);
  }

  /** What the balance features mean: absent exactly when no balance up to the observation month is
      known; otherwise the last balance is a latest known one, and the paid fraction is the share of an
      earliest known one that has gone, absent exactly when that one is zero. */
  lemma BalanceFeatures(w: Window, loan: string, fields: Static, months: seq<Month>)
    requires RecordOf(w, loan, fields, months).Some?
    ensures var f := RecordOf(w, loan, fields, months).value.features;
            && (f.upbLast.None? <==> forall m :: m in months && m.age <= w.observe ==> m.upb.None?)
            && (f.upbLast.None? ==> f.paidFraction.None?)
            && (f.upbLast.Some? ==> exists first, last ::
                  && Earliest(w, months, KnownUpb(), first) && Latest(w, months, KnownUpb(), last)
                  && last.upb == f.upbLast
                  && (f.paidFraction.None? <==> first.upb == Some(0.0))
                  && (f.paidFraction.Some? ==> f.paidFraction.value * first.upb.value == first.upb.value - f.upbLast.value))
  {
    hide RecordOf, Pre, Dlqs, Upbs, Ends, MaxOf, Mean, Earliest, Latest;
    RecordParts(w, loan, fields, months);
    var pre := Pre(w, months);
    var upbs := Upbs(pre);
    if upbs == [] {
      forall m | m in months && m.age <= w.observe
        ensures m.upb.None?
      {
        PreMembers(w, months, m);
        if m.upb.Some? {
          UpbMembers(pre, m.upb.value);
        }
      }
    } else {
      UpbEnds(pre);
      var first, last :| Ends(pre, KnownUpb(), first, last) && first.upb == Some(upbs[0]) && last.upb == Some(upbs[|upbs| - 1]);
      EndsAreExtreme(w, months, KnownUpb(), first, last);
      LatestKnown(w, months, last);
    }
  }

  lemma LatestKnown(w: Window, months: seq<Month>, m: Month)
    requires Latest(w, months, KnownUpb(), m)
    ensures m in months && m.age <= w.observe && m.upb.Some?
  {
  }

  /** The mean is a mean: it keeps a constant, and raising one entry by d raises it by the n-th part of d. */
  lemma MeanOfConstant(v: seq<int>, d: int)
    requires v != [] && forall i :: 0 <= i < |v| ==> v[i] == d
    ensures Mean(v) == d as real
  {
    TotalAtMost(v, d);
    TotalAtLeast(v, d);
    assert Total(v) as real == |v| as real * d as real;
  }

  lemma {:induction false} TotalAtLeast(v: seq<int>, x: int)
    requires forall i :: 0 <= i < |v| ==> v[i] >= x
    ensures Total(v) >= |v| * x
  {
    if v != [] {
      TotalAtLeast(v[..|v| - 1], x);
    }
  }

  lemma {:induction false} TotalMoves(v: seq<int>, k: nat, d: int)
    requires k < |v|
    ensures Total(v[k := v[k] + d]) == Total(v) + d
  {
    var n := |v| - 1;
    var moved := v[k := v[k] + d];
    if k < n {
      TotalMoves(v[..n], k, d);
      assert moved[..n] == v[..n][k := v[k] + d];
    } else {
      assert moved[..n] == v[..n];
    }
  }

  lemma MeanMoves(v: seq<int>, k: nat, d: int)
    requires k < |v|
    ensures Mean(v[k := v[k] + d]) == Mean(v) + d as real / |v| as real
  {
    TotalMoves(v, k, d);
    var n := |v| as real;
    assert (Total(v) + d) as real / n == Total(v) as real / n + d as real / n;
  }

  function DlqTotal(months: seq<Month>): int {
    Total(Dlqs(months))
  }

  lemma DlqStep(s: seq<Month>, m: Month)
    ensures |Dlqs(s + [m])| == |Dlqs(s)| + (if m.dlq.Some? then 1 else 0)
    ensures DlqTotal(s + [m]) == DlqTotal(s) + (if m.dlq.Some? then m.dlq.value else 0)
  {
    assert (s + [m])[..|s|] == s;
    var d := Dlqs(s);
    if m.dlq.Some? {
      assert (d + [m.dlq.value])[..|d|] == d;
    }
  }

  lemma {:induction false} DlqInsert(s: seq<Month>, m: Month)
    ensures |Dlqs(Insert(s, m, AgeLe))| == |Dlqs(s + [m])| && DlqTotal(Insert(s, m, AgeLe)) == DlqTotal(s + [m])
  {
    hide Dlqs, DlqTotal;
    if s == [] {
      assert [] + [m] == [m];
    } else if !AgeLe(s[|s| - 1], m) {
      var k := |s| - 1;
      DlqInsert(s[..k], m);
      DlqStep(Insert(s[..k], m, AgeLe), s[k]);
      DlqStep(s[..k], m);
      DlqStep(s[..k], s[k]);
      DlqStep(s, m);
      assert s == s[..k] + [s[k]];
    }
  }

  lemma {:induction false} DlqSort(s: seq<Month>)
    ensures |Dlqs(Sort(s, AgeLe))| == |Dlqs(s)| && DlqTotal(Sort(s, AgeLe)) == DlqTotal(s)
  {
    hide Dlqs, DlqTotal;
    if s != [] {
      var k := |s| - 1;
      DlqSort(s[..k]);
      DlqInsert(Sort(s[..k], AgeLe), s[k]);
      DlqStep(Sort(s[..k], AgeLe), s[k]);
      DlqStep(s[..k], s[k]);
      assert s == s[..k] + [s[k]];
    }
  }

  /** The mean is taken over the known delinquencies up to the observation month, whatever their order. */
  lemma MeanOfKnown(w: Window, loan: string, fields: Static, months: seq<Month>)
    requires RecordOf(w, loan, fields, months).Some?
    ensures var known := Dlqs(Before(w, months));
            known != [] && RecordOf(w, loan, fields, months).value.features.dlqMean == Mean(known)
  {
    hide RecordOf, Pre, Dlqs, Upbs, MaxOf, PaidFraction, Before, FirstBad;
    RecordParts(w, loan, fields, months);
    SortedParts(w, months);
    DlqSort(Before(w, months));
  }

  /** The earliest default of the window falls in month 0. */
  ghost predicate FirstDefaultAtZero(w: Window, months: seq<Month>) {
    && (exists m :: Defaults(w, months, m) && m.age == 0)
    && forall m :: Defaults(w, months, m) ==> 0 <= m.age
  }

  /** Label and lead time agree exactly when the earliest default is not in month 0: a zero age reads as
      "no default" in the lead-time test. With observe >= 0 that cannot happen. */
  lemma LeadMatchesLabel(w: Window, loan: string, fields: Static, months: seq<Month>)
    requires RecordOf(w, loan, fields, months).Some?
    ensures var r := RecordOf(w, loan, fields, months).value;
            (r.defaulted <==> r.lead.Some?) <==> !FirstDefaultAtZero(w, months)
    ensures w.observe >= 0 ==> !FirstDefaultAtZero(w, months)
  {
    hide Post, Pre, FeaturesOf;
    FirstBadIsEarliest(w, months);
  }

  /** A default in month 0, observed from month -1. */
  const ZERO_WINDOW := Window(-1, 1, 3)
  const ZERO_PRE := [Month(-3, Some(0), None), Month(-2, Some(0), None), Month(-1, Some(0), None)]
  const ZERO_POST := [Month(0, Some(3), None)]

  lemma ZeroHistoryParts()
    ensures Pre(ZERO_WINDOW, ZERO_PRE + ZERO_POST) == ZERO_PRE
    ensures Post(ZERO_WINDOW, ZERO_PRE + ZERO_POST) == ZERO_POST
  {
    var w, p := ZERO_WINDOW, ZERO_PRE;
    var months := p + ZERO_POST;
    AgePreorder();
    SortOfSorted(months, AgeLe);
    FilterConcat(p, ZERO_POST, PreTest(w));
    FilterConcat(p, ZERO_POST, PostTest(w));
    assert p == [p[0]] + [p[1]] + [p[2]];
    FilterConcat([p[0]] + [p[1]], [p[2]], PreTest(w));
    FilterConcat([p[0]], [p[1]], PreTest(w));
    FilterConcat([p[0]] + [p[1]], [p[2]], PostTest(w));
    FilterConcat([p[0]], [p[1]], PostTest(w));
  }

  /** The disagreement is real when the observation month may be negative. */
  lemma LeadCanMissADefault()
    ensures var r := RecordOf(ZERO_WINDOW, "L", Static([], false, "", ""), ZERO_PRE + ZERO_POST);
            r.Some? && r.value.defaulted && r.value.lead.None?
  {
    hide Pre, Post;
    ZeroHistoryParts();
    var p := ZERO_PRE;
    assert p[..2] == [p[0], p[1]] && [p[0], p[1]][..1] == [p[0]];
    assert Dlqs([p[0]]) == [0];
    assert Dlqs([p[0], p[1]]) == [0, 0];
    assert Dlqs(p) == [0, 0, 0];
    assert [0, 0, 0][..2] == [0, 0] && [0, 0][..1] == [0];
    assert MaxOf([0, 0, 0]) == 0;
    assert FirstBad(ZERO_WINDOW, ZERO_POST) == Some(0);
  }

  // ------------------------------------------------------------------ the stream

  /** The history of one loan: its usable rows, in stream order. */
  function HistoryOf(rows: seq<Row>, loan: string): seq<Month> {
    if rows == [] then []
    else
      var rest := HistoryOf(rows[..|rows| - 1], loan);
      match rows[|rows| - 1]
      case Unusable => rest
      case Row(l, month, _) => if l == loan then rest + [month] else rest
  }

  /** Loans in order of first appearance. */
  function Loans(rows: seq<Row>): seq<string> {
    if rows == [] then []
    else
      var rest := Loans(rows[..|rows| - 1]);
      match rows[|rows| - 1]
      case Unusable => rest
      case Row(l, _, _) => if l in rest then rest else rest + [l]
  }

  /** The fields of a loan's first usable row. */
  function FieldsOf(rows: seq<Row>, loan: string): Option<Static> {
    if rows == [] then None
    else
      var rest := FieldsOf(rows[..|rows| - 1], loan);
      match rows[|rows| - 1]
      case Unusable => rest
      case Row(l, _, s) => if l == loan && rest.None? then Some(s) else rest
  }

  lemma {:induction false} LoansHaveFields(rows: seq<Row>, loan: string)
    ensures loan in Loans(rows) <==> FieldsOf(rows, loan).Some?
  {
    if rows != [] {
      LoansHaveFields(rows[..|rows| - 1], loan);
    }
  }

  /** The panel records of the first k loans. */
  function Records(w: Window, rows: seq<Row>, loans: seq<string>): seq<Record> {
    if loans == [] then []
    else
      var rest := Records(w, rows, loans[..|loans| - 1]);
      var loan := loans[|loans| - 1];
      match FieldsOf(rows, loan)
      case None => rest
      case Some(s) =>
        match RecordOf(w, loan, s, HistoryOf(rows, loan))
        case None => rest
        case Some(r) => rest + [r]
  }

  /** A limit of 0 means no limit. */
  function Limited(rows: seq<Row>, limit: nat): (r: seq<Row>)
    ensures |r| <= |rows| && r == rows[..|r|]
    ensures limit == 0 || limit >= |rows| ==> r == rows
    ensures 0 < limit <= |rows| ==> |r| == limit
  {
    if limit > 0 && limit < |rows| then rows[..limit] else rows
  }

  datatype PanelError = NoObservableAccounts

  /** The streaming pass: per-loan histories and first-seen fields, stopping at the row limit. */
  method ReadStream(rows: seq<Row>, limit: nat)
    returns (order: seq<string>, fields: map<string, Static>, history: map<string, seq<Month>>)
    ensures var read := Limited(rows, limit);
            && order == Loans(read)
            && (forall l :: l in order ==> l in history && history[l] == HistoryOf(read, l))
            && (forall l :: l in order ==> l in fields && Some(fields[l]) == FieldsOf(read, l))
  {
    order, fields, history := [], map[], map[];
    var seen := 0;
    ghost var read := Limited(rows, limit);
    while seen < |rows|
      invariant seen <= |read|
      invariant order == Loans(read[..seen])
      invariant forall l :: l in history <==> l in order
      invariant forall l :: l in fields <==> l in order
      invariant forall l :: l in history ==> history[l] == HistoryOf(read[..seen], l)
      invariant forall l :: l in fields ==> Some(fields[l]) == FieldsOf(read[..seen], l)
      decreases |rows| - seen
    {
      if limit != 0 && seen + 1 > limit {
        break;
      }
      assert read[..seen + 1][..seen] == read[..seen];
      match rows[seen] {
        case Unusable =>
        case Row(loan, month, s) =>
          LoansHaveFields(read[..seen], loan);
          NoHistoryOutsideLoans(read[..seen], loan);
          if loan !in fields {
            order, history, fields := order + [loan], history[loan := []], fields[loan := s];
          }
          history := history[loan := history[loan] + [month]];
      }
      seen := seen + 1;
    }
    assert read[..seen] == read;
  }

  method BuildPanel(rows: seq<Row>, limit: nat, w: Window) returns (r: Result<seq<Record>, PanelError>)
    ensures var read := Limited(rows, limit);
            var records := Records(w, read, Loans(read));
            r == if records == [] then Err(NoObservableAccounts) else Ok(records)
  {
    hide RecordOf, Loans, HistoryOf, FieldsOf, Limited;
    var order, fields, history := ReadStream(rows, limit);
    ghost var read := Limited(rows, limit);
    var records: seq<Record> := [];
    for k := 0 to |order|
      invariant records == Records(w, read, order[..k])
    {
      assert order[..k + 1][..k] == order[..k];
      var loan := order[k];
      var record := RecordOf(w, loan, fields[loan], history[loan]);
      if record.Some? {
        records := records + [record.value];
      }
    }
    assert order[..|order|] == order;
    r := if records == [] then Err(NoObservableAccounts) else Ok(records);
  }

  lemma {:induction false} NoHistoryOutsideLoans(rows: seq<Row>, loan: string)
    ensures loan in Loans(rows) <==> HistoryOf(rows, loan) != []
  {
    if rows != [] {
      NoHistoryOutsideLoans(rows[..|rows| - 1], loan);
    }
  }

  function OwnRow(loan: string): Row -> bool {
    (r: Row) => r.Row? && r.loan == loan
  }

  /** Rows of other loans never reach a loan's record. */
  lemma {:induction false} OtherLoansIrrelevant(rows: seq<Row>, loan: string)
    ensures HistoryOf(Filter(rows, OwnRow(loan)), loan) == HistoryOf(rows, loan)
    ensures FieldsOf(Filter(rows, OwnRow(loan)), loan) == FieldsOf(rows, loan)
  {
    if rows != [] {
      var k := |rows| - 1;
      OtherLoansIrrelevant(rows[..k], loan);
      var kept := Filter(rows[..k], OwnRow(loan));
      if OwnRow(loan)(rows[k]) {
        assert Filter(rows, OwnRow(loan)) == kept + [rows[k]];
        assert (kept + [rows[k]])[..|kept|] == kept;
      }
    }
  }

  // ------------------------------------------------ the stream, row by row

  /** Row i is a usable row of the loan, and no earlier row is. */
  ghost predicate FirstRow(rows: seq<Row>, loan: string, i: int) {
    && 0 <= i < |rows| && rows[i].Row? && rows[i].loan == loan
    && forall j :: 0 <= j < i && rows[j].Row? ==> rows[j].loan != loan
  }

  /** A loan takes its fields from its first usable row. */
  lemma {:induction false} FieldsAreFirst(rows: seq<Row>, loan: string, i: int)
    requires FirstRow(rows, loan, i)
    ensures loan in Loans(rows) && FieldsOf(rows, loan) == Some(rows[i].fields)
  {
    var k := |rows| - 1;
    LoansHaveFields(rows, loan);
    if i < k {
      assert FirstRow(rows[..k], loan, i);
      FieldsAreFirst(rows[..k], loan, i);
    } else {
      NoFieldsYet(rows, loan, k);
    }
  }

  lemma {:induction false} NoFieldsYet(rows: seq<Row>, loan: string, k: nat)
    requires k <= |rows| && forall j :: 0 <= j < k && rows[j].Row? ==> rows[j].loan != loan
    ensures FieldsOf(rows[..k], loan).None?
  {
    if k > 0 {
      assert rows[..k][..k - 1] == rows[..k - 1];
      NoFieldsYet(rows, loan, k - 1);
    }
  }

  /** A loan that is read has a first usable row. */
  lemma {:induction false} ReadHasRow(rows: seq<Row>, loan: string)
    requires loan in Loans(rows)
    ensures exists i :: FirstRow(rows, loan, i)
  {
    var k := |rows| - 1;
    if loan in Loans(rows[..k]) {
      ReadHasRow(rows[..k], loan);
      var i :| FirstRow(rows[..k], loan, i);
      FirstRowStays(rows, loan, i);
    } else {
      NoRowYet(rows, loan, k);
      assert FirstRow(rows, loan, k);
    }
  }

  lemma FirstRowStays(rows: seq<Row>, loan: string, i: int)
    requires rows != [] && FirstRow(rows[..|rows| - 1], loan, i)
    ensures FirstRow(rows, loan, i)
  {
    assert forall j :: 0 <= j <= i ==> rows[..|rows| - 1][j] == rows[j];
  }

  lemma {:induction false} NoRowYet(rows: seq<Row>, loan: string, k: nat)
    requires k <= |rows| && loan !in Loans(rows[..k])
    ensures forall j :: 0 <= j < k && rows[j].Row? ==> rows[j].loan != loan
  {
    if k > 0 {
      assert rows[..k][..k - 1] == rows[..k - 1];
      NoRowYet(rows, loan, k - 1);
    }
  }

  /** Loans are listed once each, in the order of their first usable rows. */
  lemma {:induction false} LoansInOrder(rows: seq<Row>, a: nat, b: nat)
    requires a < b < |Loans(rows)|
    ensures exists i, j :: i < j && FirstRow(rows, Loans(rows)[a], i) && FirstRow(rows, Loans(rows)[b], j)
  {
    var k := |rows| - 1;
    var before, loans := Loans(rows[..k]), Loans(rows);
    assert before == loans[..|before|];
    if b < |before| {
      LoansInOrder(rows[..k], a, b);
      var i, j :| i < j && FirstRow(rows[..k], before[a], i) && FirstRow(rows[..k], before[b], j);
      FirstRowStays(rows, loans[a], i);
      FirstRowStays(rows, loans[b], j);
    } else {
      assert loans[b] !in before;
      NoRowYet(rows, loans[b], k);
      assert FirstRow(rows, loans[b], k);
      ReadHasRow(rows[..k], before[a]);
      var i :| FirstRow(rows[..k], before[a], i);
      FirstRowStays(rows, loans[a], i);
    }
  }

  /** A history is the months of the loan's own usable rows, all of them, in stream order. */
  lemma {:induction false} HistoryIsOwnRows(rows: seq<Row>, loan: string)
    ensures var own := Filter(rows, OwnRow(loan));
            && |HistoryOf(rows, loan)| == |own|
            && forall i :: 0 <= i < |own| ==> own[i].Row? && own[i].loan == loan && own[i].month == HistoryOf(rows, loan)[i]
  {
    if rows != [] {
      HistoryIsOwnRows(rows[..|rows| - 1], loan);
    }
  }

  /** The loan has usable rows and its history can be observed. */
  function InPanel(w: Window, rows: seq<Row>): string -> bool {
    loan => FieldsOf(rows, loan).Some? && RecordOf(w, loan, FieldsOf(rows, loan).value, HistoryOf(rows, loan)).Some?
  }

  /** Record r is its own loan's, built from that loan's fields and history. */
  ghost predicate OwnRecord(w: Window, rows: seq<Row>, r: Record) {
    && FieldsOf(rows, r.loan).Some?
    && RecordOf(w, r.loan, FieldsOf(rows, r.loan).value, HistoryOf(rows, r.loan)) == Some(r)
  }

  function LoanOf(r: Record): string {
    r.loan
  }

  /** The panel holds one record for each loan that can be observed and none besides, in the order given. */
  lemma {:induction false} PanelExactly(w: Window, rows: seq<Row>, loans: seq<string>)
    ensures Map(Records(w, rows, loans), LoanOf) == Filter(loans, InPanel(w, rows))
    ensures forall i :: 0 <= i < |Records(w, rows, loans)| ==> OwnRecord(w, rows, Records(w, rows, loans)[i])
  {
    hide FieldsOf, HistoryOf, RecordOf;
    if loans != [] {
      var k := |loans| - 1;
      PanelExactly(w, rows, loans[..k]);
      var loan := loans[k];
      if FieldsOf(rows, loan).Some? {
        RecordsName(w, loan, FieldsOf(rows, loan).value, HistoryOf(rows, loan));
      }
    }
  }

  lemma RecordsName(w: Window, loan: string, fields: Static, months: seq<Month>)
    ensures var r := RecordOf(w, loan, fields, months); r.Some? ==> r.value.loan == loan && r.value.fields == fields
  {
    hide Pre, Post, FeaturesOf, Dlqs, FirstBad;
  }
}
