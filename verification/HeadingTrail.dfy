/** When the parser's heading trail is the chain of enclosing headings (assistant/chunking.py). */
module HeadingTrail {
  import opened Blocks

  /** hs[i] still encloses what follows hs: every heading after it is deeper. */
  ghost predicate Encloses(hs: seq<HeadingMark>, i: nat)
    requires i < |hs|
  {
    forall j :: i < j < |hs| ==> hs[j].level > hs[i].level
  }

  /** The headings that enclose what follows hs, outermost first. */
  ghost function Enclosing(hs: seq<HeadingMark>): seq<HeadingMark> {
    if hs == [] then []
    else (if Encloses(hs, 0) then [hs[0]] else []) + Enclosing(hs[1..])
  }

  ghost function Shallower(chain: seq<HeadingMark>, level: nat): (r: seq<HeadingMark>)
    ensures |r| <= |chain|
  {
    if chain == [] then []
    else (if chain[0].level < level then [chain[0]] else []) + Shallower(chain[1..], level)
  }

  function Titles(chain: seq<HeadingMark>): (r: seq<string>)
    ensures |r| == |chain|
    ensures forall i :: 0 <= i < |chain| ==> r[i] == chain[i].title
  {
    seq(|chain|, i requires 0 <= i < |chain| => chain[i].title)
  }

  ghost predicate Levelled(hs: seq<HeadingMark>) {
    forall i :: 0 <= i < |hs| ==> hs[i].level >= 1
  }

  ghost predicate Deepening(chain: seq<HeadingMark>) {
    && Levelled(chain)
    && forall i, j :: 0 <= i < j < |chain| ==> chain[i].level < chain[j].level
  }

  /** A heading of this level cuts the trail exactly where the chain ends: no enclosing heading that
      the cut keeps is as deep as it. */
  ghost predicate ClosesCleanly(chain: seq<HeadingMark>, level: nat) {
    forall i :: 0 <= i < |chain| && i < level - 1 ==> chain[i].level < level
  }

  lemma EnclosesStep(hs: seq<HeadingMark>, h: HeadingMark)
    requires hs != []
    ensures Encloses(hs + [h], 0) <==> Encloses(hs, 0) && hs[0].level < h.level
  {
    var all := hs + [h];
    assert all[|hs|] == h;
    assert forall j :: 0 <= j < |hs| ==> all[j] == hs[j];
  }

  lemma EnclosingHead(hs: seq<HeadingMark>)
    requires hs != []
    ensures Enclosing(hs) == (if Encloses(hs, 0) then [hs[0]] else []) + Enclosing(hs[1..])
  {
    hide Encloses;
  }

  lemma ShallowerHead(x: HeadingMark, rest: seq<HeadingMark>, level: nat)
    ensures Shallower([x] + rest, level) == (if x.level < level then [x] else []) + Shallower(rest, level)
  {
    assert ([x] + rest)[1..] == rest;
  }

  lemma Reassociate(a: seq<HeadingMark>, b: seq<HeadingMark>, c: seq<HeadingMark>)
    ensures a + (b + c) == (a + b) + c
    ensures a == [] ==> a + c == c && a + b == b
  {
  }

  /** One more heading closes the enclosing headings that are no shallower, and opens itself. */
  lemma {:induction false} EnclosingStep(hs: seq<HeadingMark>, h: HeadingMark)
    ensures Enclosing(hs + [h]) == Shallower(Enclosing(hs), h.level) + [h]
  {
    if hs == [] {
      assert hs + [h] == [h] && [h][1..] == [];
    } else {
      hide Enclosing, Shallower, Encloses;
      EnclosingStep(hs[1..], h);
      EnclosingHead(hs);
      EnclosingHead(hs + [h]);
      assert (hs + [h])[1..] == hs[1..] + [h];
      EnclosesStep(hs, h);
      var rest, kept := Enclosing(hs[1..]), Shallower(Enclosing(hs[1..]), h.level);
      ShallowerHead(hs[0], rest, h.level);
      Reassociate([hs[0]], kept, [h]);
      Reassociate([], kept, [h]);
      Reassociate([], [], rest);
      if Encloses(hs, 0) {
        assert Enclosing(hs) == [hs[0]] + rest;
      } else {
        assert Enclosing(hs) == rest;
      }
    }
  }

  /** On a deepening chain the shallower headings are a prefix. */
  lemma {:induction false} ShallowerPrefix(chain: seq<HeadingMark>, level: nat)
    requires Deepening(chain)
    ensures var kept := Shallower(chain, level);
            && kept == chain[..|kept|]
            && (forall i :: 0 <= i < |kept| ==> chain[i].level < level)
            && (forall i :: |kept| <= i < |chain| ==> chain[i].level >= level)
  {
    if chain != [] {
      var rest := chain[1..];
      assert Deepening(rest);
      ShallowerPrefix(rest, level);
      var k := |Shallower(rest, level)|;
      assert forall i :: 1 <= i < |chain| ==> chain[i] == rest[i - 1];
      if chain[0].level < level {
        assert [chain[0]] + rest[..k] == chain[..k + 1];
      } else {
        assert rest != [] ==> rest[0].level > chain[0].level;
        assert k == 0;
        assert [] + rest[..0] == chain[..0];
      }
    }
  }

  lemma DeepenStep(chain: seq<HeadingMark>, h: HeadingMark)
    requires Deepening(chain) && h.level >= 1
    ensures Deepening(Shallower(chain, h.level) + [h])
  {
    hide Shallower;
    ShallowerPrefix(chain, h.level);
    var kept := Shallower(chain, h.level);
    assert forall i :: 0 <= i < |kept| ==> kept[i] == chain[i];
  }

  lemma {:induction false} EnclosingDeepens(hs: seq<HeadingMark>)
    requires Levelled(hs)
    ensures Deepening(Enclosing(hs))
  {
    if hs != [] {
      hide Enclosing, Shallower;
      var n := |hs| - 1;
      EnclosingDeepens(hs[..n]);
      EnclosingStep(hs[..n], hs[n]);
      assert hs == hs[..n] + [hs[n]];
      DeepenStep(Enclosing(hs[..n]), hs[n]);
    }
  }

  lemma {:induction false} DepthBelowLevel(chain: seq<HeadingMark>, i: nat)
    requires Deepening(chain) && i < |chain|
    ensures chain[i].level >= i + 1
  {
    if i > 0 {
      DepthBelowLevel(chain, i - 1);
    }
  }

  /** Cutting the trail at level - 1 keeps exactly the shallower headings iff the cut is clean. */
  lemma CutMatches(chain: seq<HeadingMark>, level: nat)
    requires Deepening(chain) && level >= 1
    ensures Take(Titles(chain), level - 1) == Titles(Shallower(chain, level)) <==> ClosesCleanly(chain, level)
  {
    ShallowerPrefix(chain, level);
    var kept := Shallower(chain, level);
    var cut := Take(Titles(chain), level - 1);
    if kept != [] {
      DepthBelowLevel(chain, |kept| - 1);
    }
    assert |kept| <= |cut|;
    if ClosesCleanly(chain, level) {
      if |kept| < |chain| {
        var next := chain[|kept|];
        assert next.level >= level;
        assert |kept| >= level - 1;
      }
      assert cut == Titles(kept);
    }
    if cut == Titles(kept) {
      forall i | 0 <= i < |chain| && i < level - 1
        ensures chain[i].level < level
      {
        assert i < |cut| == |kept|;
      }
    }
  }

  /** If the trail was the chain before a heading, it is the chain after it exactly when the heading
      closes cleanly. */
  lemma TrailStep(hs: seq<HeadingMark>, h: HeadingMark)
    requires Levelled(hs) && h.level >= 1
    requires PathFrom([], hs) == Titles(Enclosing(hs))
    ensures PathFrom([], hs + [h]) == Titles(Enclosing(hs + [h])) <==> ClosesCleanly(Enclosing(hs), h.level)
  {
    hide Enclosing, Shallower, ClosesCleanly, Take;
    assert (hs + [h])[..|hs|] == hs;
    EnclosingStep(hs, h);
    EnclosingDeepens(hs);
    var chain := Enclosing(hs);
    CutMatches(chain, h.level);
    var kept := Titles(Shallower(chain, h.level));
    assert Titles(Shallower(chain, h.level) + [h]) == kept + [h.title];
    var cut := Take(Titles(chain), h.level - 1);
    assert PathFrom([], hs + [h]) == cut + [h.title];
    if cut + [h.title] == kept + [h.title] {
      assert |cut| == |kept|;
      assert (cut + [h.title])[..|cut|] == cut && (kept + [h.title])[..|kept|] == kept;
    }
  }

  ghost predicate TrailIsChain(hs: seq<HeadingMark>, n: nat)
    requires n <= |hs|
  {
    PathFrom([], hs[..n]) == Titles(Enclosing(hs[..n]))
  }

  ghost predicate CleanAt(hs: seq<HeadingMark>, n: nat)
    requires n < |hs|
  {
    ClosesCleanly(Enclosing(hs[..n]), hs[n].level)
  }

  /** The trail is the chain of enclosing headings all along exactly when every heading closes cleanly. */
  lemma {:induction false} TrailIsEnclosing(hs: seq<HeadingMark>)
    requires Levelled(hs)
    ensures (forall n :: 0 <= n <= |hs| ==> TrailIsChain(hs, n)) <==> (forall n :: 0 <= n < |hs| ==> CleanAt(hs, n))
  {
    hide Enclosing, ClosesCleanly, PathFrom;
    if hs == [] {
      EmptyTrail(hs);
    } else {
      var m := |hs| - 1;
      var front := hs[..m];
      TrailIsEnclosing(front);
      assert forall n :: 0 <= n <= m ==> front[..n] == hs[..n];
      assert forall n :: 0 <= n <= m ==> (TrailIsChain(hs, n) <==> TrailIsChain(front, n));
      assert forall n :: 0 <= n < m ==> (CleanAt(hs, n) <==> CleanAt(front, n));
      assert hs == front + [hs[m]] && hs[..|hs|] == hs;
      if TrailIsChain(hs, m) {
        TrailStep(front, hs[m]);
        assert TrailIsChain(hs, |hs|) <==> CleanAt(hs, m);
      } else {
        assert TrailIsChain(front, m) <==> TrailIsChain(hs, m);
      }
    }
  }

  lemma EmptyTrail(hs: seq<HeadingMark>)
    requires hs == []
    ensures TrailIsChain(hs, 0)
  {
    assert hs[..0] == [];
  }

  lemma EmptyEnclosing(hs: seq<HeadingMark>)
    ensures |hs| == 0 ==> Enclosing(hs) == []
  {
  }

  /** Levels start at 1 and never go deeper by more than one. */
  ghost predicate NeverSkips(hs: seq<HeadingMark>) {
    && Levelled(hs)
    && (hs != [] ==> hs[0].level == 1)
    && (forall i, j :: 0 <= i && j == i + 1 && j < |hs| ==> hs[j].level <= hs[i].level + 1)
  }

  /** Levels 1, 2, 3, ... */
  ghost predicate Staircase(chain: seq<HeadingMark>) {
    forall i :: 0 <= i < |chain| ==> chain[i].level == i + 1
  }

  lemma StaircaseGrows(chain: seq<HeadingMark>, h: HeadingMark)
    requires Staircase(chain) && h.level == |chain| + 1
    ensures Staircase(chain + [h])
  {
  }

  lemma StaircaseCut(chain: seq<HeadingMark>, level: nat)
    requires Staircase(chain) && 1 <= level <= |chain| + 1
    ensures Staircase(Shallower(chain, level)) && |Shallower(chain, level)| == level - 1
  {
    ShallowerPrefix(chain, level);
    hide Shallower;
    var k := |Shallower(chain, level)|;
    if k > 0 {
      assert chain[k - 1].level < level;
    }
    if k < |chain| {
      assert chain[k].level >= level;
    }
  }

  lemma UnskippedFront(hs: seq<HeadingMark>)
    requires NeverSkips(hs) && hs != []
    ensures var n := |hs| - 1;
            && NeverSkips(hs[..n])
            && 1 <= hs[n].level <= (if n == 0 then 0 else hs[n - 1].level) + 1
  {
  }

  /** Without skips the enclosing headings have levels 1, 2, ... up to the last heading's. */
  lemma {:induction false} UnskippedLevels(hs: seq<HeadingMark>)
    requires NeverSkips(hs)
    ensures Staircase(Enclosing(hs))
    ensures |Enclosing(hs)| == if hs == [] then 0 else hs[|hs| - 1].level
  {
    if hs == [] {
      EmptyEnclosing(hs);
    } else {
      hide Enclosing, Shallower, NeverSkips, Staircase;
      var n := |hs| - 1;
      var front, h := hs[..n], hs[n];
      assert hs == front + [h];
      EnclosingStep(front, h);
      UnskippedFront(hs);
      UnskippedLevels(front);
      StaircaseCut(Enclosing(front), h.level);
      StaircaseGrows(Shallower(Enclosing(front), h.level), h);
    }
  }

  /** So when levels are never skipped, the trail is always the chain of enclosing headings. */
  lemma UnskippedTrail(hs: seq<HeadingMark>)
    requires NeverSkips(hs)
    ensures PathFrom([], hs) == Titles(Enclosing(hs))
  {
    hide Enclosing, PathFrom;
    forall n | 0 <= n < |hs|
      ensures CleanAt(hs, n)
    {
      CleanWhenUnskipped(hs, n);
    }
    TrailIsEnclosing(hs);
    assert TrailIsChain(hs, |hs|) && hs[..|hs|] == hs;
  }

  lemma CleanWhenUnskipped(hs: seq<HeadingMark>, n: nat)
    requires NeverSkips(hs) && n < |hs|
    ensures CleanAt(hs, n)
  {
    UnskippedLevels(hs[..n]);
  }

  lemma UnskippedPrefix(a: seq<HeadingMark>, b: seq<HeadingMark>)
    requires NeverSkips(a + b)
    ensures NeverSkips(a)
  {
    assert forall i :: 0 <= i < |a| ==> (a + b)[i] == a[i];
  }

  /** In a document whose levels are never skipped, every block of body lines carries as its trail
      exactly the headings that enclose its first line. */
  lemma BlockTrail(lines: seq<Line>, k: nat) returns (i: nat, j: nat)
    requires NeverSkips(Headings(lines))
    requires k < |Segments(lines, [])| && Segments(lines, [])[k].kind != Heading
    ensures i < j <= |lines| && Segments(lines, [])[k].lines == lines[i..j]
    ensures Segments(lines, [])[k].path == Titles(Enclosing(Headings(lines[..i])))
  {
    hide Segments, Headings, NeverSkips, Enclosing, PathFrom, NonBlank, AllLines;
    i, j := BlockIsOneRun(lines, [], k);
    assert lines == lines[..i] + lines[i..];
    HeadingsConcat(lines[..i], lines[i..]);
    UnskippedPrefix(Headings(lines[..i]), Headings(lines[i..]));
    UnskippedTrail(Headings(lines[..i]));
  }

  lemma NothingYet(level: nat)
    ensures Enclosing([]) == [] && Shallower([], level) == [] && PathFrom([], []) == []
  {
  }

  /** The trail and the chain after one more heading. */
  lemma AfterHeading(hs: seq<HeadingMark>, h: HeadingMark)
    ensures PathFrom([], hs + [h]) == PathAfter(PathFrom([], hs), h.level, h.title)
    ensures Enclosing(hs + [h]) == Shallower(Enclosing(hs), h.level) + [h]
  {
    assert (hs + [h])[..|hs|] == hs;
    EnclosingStep(hs, h);
  }

  /** With a skipped level the trail keeps a closed heading: under H1, H3, H3 the second H3's trail
      still names the first. */
  lemma SkippedLevelKeepsClosedHeading()
    ensures PathFrom([], [HeadingMark(1, "A"), HeadingMark(3, "B"), HeadingMark(3, "C")]) == ["A", "B", "C"]
    ensures Titles(Enclosing([HeadingMark(1, "A"), HeadingMark(3, "B"), HeadingMark(3, "C")])) == ["A", "C"]
  {
    hide Enclosing, Shallower, PathFrom;
    var a, b, c := HeadingMark(1, "A"), HeadingMark(3, "B"), HeadingMark(3, "C");
    NothingYet(1);
    NothingYet(3);
    AfterHeading([], a);
    assert [] + [a] == [a];
    AfterHeading([a], b);
    ShallowerHead(a, [], 3);
    assert [a] + [b] == [a, b] && [a] + [] == [a];
    AfterHeading([a, b], c);
    ShallowerHead(a, [b], 3);
    ShallowerHead(b, [], 3);
    assert [a, b] + [c] == [a, b, c] && [b] + [] == [b];
    assert Enclosing([a, b, c]) == [a, c];
  }
}
