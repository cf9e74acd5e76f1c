/** The answer validator: sentence splitting and the uncited-number filter (assistant/answer.py). */
module Answer {
  import opened Sequences
  import opened Sorting

  /** A whitespace-separated token. A mark is made of citation markers only, with their punctuation;
      other tokens may still carry citations inside or at their end. */
  datatype Tok = Tok(text: string, mark: bool, cites: seq<string>, tools: seq<string>)

  type Text = seq<Tok>

  const ABBREVIATIONS := ["rs.", "no.", "vs.", "sr.", "smt.", "shri.", "dr.", "mr.", "mrs.", "ms."]

  function LowerChar(c: char): char {
    if 'A' <= c <= 'Z' then c - 'A' + 'a' else c
  }

  function Lower(s: string): (r: string)
    ensures |r| == |s|
    ensures forall i :: 0 <= i < |s| ==> r[i] == LowerChar(s[i])
  {
    seq(|s|, i requires 0 <= i < |s| => LowerChar(s[i]))
  }

  predicate EndsWith(s: string, suffix: string) {
    |suffix| <= |s| && s[|s| - |suffix|..] == suffix
  }

  /** The token ends a regex split: its last character is terminal punctuation or the danda. */
  predicate Terminal(t: Tok) {
    t.text != "" && t.text[|t.text| - 1] in ['.', '!', '?', '\U{0964}']
  }

  /** The merged sentence's `endswith(_ABBREVIATIONS)` test: a suffix of its last token. */
  predicate Abbrev(t: Tok) {
    !t.mark && exists k :: 0 <= k < |ABBREVIATIONS| && EndsWith(Lower(t.text), ABBREVIATIONS[k])
  }

  // ------------------------------------------------------------------ the splitter

  /** The regex split: cut after every terminal token. */
  function Parts(text: Text): seq<Text> {
    if text == [] then []
    else
      var k := |text| - 1;
      var before := Parts(text[..k]);
      if k > 0 && !Terminal(text[k - 1]) && before != [] then
        before[..|before| - 1] + [before[|before| - 1] + [text[k]]]
      else before + [[text[k]]]
  }

  predicate AllMarks(part: Text) {
    forall i :: 0 <= i < |part| ==> part[i].mark
  }

  /** How many marks a part starts with. */
  function Leading(part: Text): (n: nat)
    ensures n <= |part| && AllMarks(part[..n]) && (n < |part| ==> !part[n].mark)
  {
    if part == [] || !part[0].mark then 0
    else
      var n := Leading(part[1..]);
      assert part[..n + 1] == [part[0]] + part[1..][..n];
      n + 1
  }

  /** Whether a sentence break is waiting for the next word: the last terminal token since the last
      word (that word included) exists and is no abbreviation. */
  predicate Pending(text: Text) {
    if text == [] then false
    else
      var t := text[|text| - 1];
      if Terminal(t) then !Abbrev(t)
      else t.mark && Pending(text[..|text| - 1])
  }

  predicate BreakBefore(text: Text, i: nat)
    requires i < |text|
  {
    !text[i].mark && Pending(text[..i])
  }

  function Extend(sentences: seq<Text>, more: Text): seq<Text>
    requires sentences != []
  {
    sentences[..|sentences| - 1] + [sentences[|sentences| - 1] + more]
  }

  /** Reference form: one left-to-right rule decides every break. */
  function Sentences(text: Text): (r: seq<Text>)
    ensures r == [] <==> text == []
  {
    if text == [] then []
    else
      var k := |text| - 1;
      if k == 0 || BreakBefore(text, k) then Sentences(text[..k]) + [[text[k]]]
      else Extend(Sentences(text[..k]), [text[k]])
  }

  lemma FlattenExtend(sentences: seq<Text>, more: Text)
    requires sentences != []
    ensures Flatten(Extend(sentences, more)) == Flatten(sentences) + more
  {
    var k := |sentences| - 1;
    assert Extend(sentences, more)[..k] == sentences[..k];
    assert Flatten(sentences[..k]) + (sentences[k] + more) == Flatten(sentences[..k]) + sentences[k] + more;
  }

  /** Splitting loses, reorders and duplicates no token. */
  lemma {:induction false} SentencesFlatten(text: Text)
    ensures Flatten(Sentences(text)) == text
  {
    hide Pending, Extend;
    if text != [] {
      var k := |text| - 1;
      SentencesFlatten(text[..k]);
      if k == 0 || BreakBefore(text, k) {
        FlattenAppend(Sentences(text[..k]), [text[k]]);
      } else {
        FlattenExtend(Sentences(text[..k]), [text[k]]);
      }
    }
  }

  lemma {:induction false} LastSentenceEnd(text: Text)
    requires text != []
    ensures var s := Sentences(text)[|Sentences(text)| - 1]; s != [] && s[|s| - 1] == text[|text| - 1]
  {
    hide Pending;
  }

  // -------------------------------------------- the loop agrees with the reference

  /** Token i of `more`, read after `text`, opens no sentence. */
  predicate JoinsAt(text: Text, more: Text, i: nat)
    requires i < |more|
  {
    more[i].mark || !Pending(text + more[..i])
  }

  ghost predicate AllJoin(text: Text, more: Text) {
    forall i :: 0 <= i < |more| ==> JoinsAt(text, more, i)
  }

  lemma ExtendTwice(s: seq<Text>, more: Text, t: Tok)
    requires s != []
    ensures Extend(Extend(s, more), [t]) == Extend(s, more + [t])
    ensures Extend(s, []) == s
  {
    var k := |s| - 1;
    var e := Extend(s, more);
    assert e[..k] == s[..k] && e[k] == s[k] + more;
    assert s[k] + more + [t] == s[k] + (more + [t]);
    assert s[k] + [] == s[k];
  }

  /** Tokens that open no sentence extend the last one. */
  lemma {:induction false} NoBreaks(text: Text, more: Text)
    requires text != []
    requires AllJoin(text, more)
    ensures Sentences(text + more) == Extend(Sentences(text), more)
  {
    hide Pending, Extend;
    if more == [] {
      assert text + more == text;
      ExtendTwice(Sentences(text), [], Tok("", false, [], []));
    } else {
      var k := |more| - 1;
      var whole := text + more;
      assert whole[..|whole| - 1] == text + more[..k];
      forall i | 0 <= i < k
        ensures JoinsAt(text, more[..k], i)
      {
        assert JoinsAt(text, more, i);
        assert more[..k][..i] == more[..i];
      }
      NoBreaks(text, more[..k]);
      assert JoinsAt(text, more, k);
      assert more == more[..k] + [more[k]];
      ExtendTwice(Sentences(text), more[..k], more[k]);
    }
  }

  /** A part of the regex split: not empty, and terminal at most at its end. */
  predicate IsPart(part: Text) {
    part != [] && forall i :: 0 <= i < |part| - 1 ==> !Terminal(part[i])
  }

  predicate EndsTerminal(part: Text) {
    part != [] && Terminal(part[|part| - 1])
  }

  /** Inside a part, a break can only be pending while all its tokens so far are marks. */
  lemma {:induction false} PendingInsidePart(text: Text, part: Text, i: nat)
    requires IsPart(part) && i < |part|
    ensures Pending(text + part[..i]) <==> AllMarks(part[..i]) && Pending(text)
  {
    hide Terminal, Abbrev;
    if i == 0 {
      assert text + part[..0] == text;
    } else {
      PendingInsidePart(text, part, i - 1);
      var upto := text + part[..i];
      assert upto[..|upto| - 1] == text + part[..i - 1];
      assert part[..i] == part[..i - 1] + [part[i - 1]];
    }
  }

  lemma SingleToken(t: Tok)
    ensures Sentences([t]) == [[t]]
  {
    hide Pending;
    assert [t][..0] == [];
    assert Sentences([]) == [];
  }

  lemma FirstPart(part: Text)
    requires IsPart(part)
    ensures Sentences(part) == [part]
  {
    hide Terminal, Abbrev, Sentences, Pending;
    var first, rest := [part[0]], part[1..];
    forall i | 0 <= i < |rest|
      ensures JoinsAt(first, rest, i)
    {
      PendingInsidePart([], part, i + 1);
      assert [] + part[..i + 1] == first + rest[..i];
      NothingPending();
    }
    SingleToken(part[0]);
    NoBreaks(first, rest);
    assert part == first + rest;
  }

  lemma NothingPending()
    ensures !Pending([])
  {
  }

  /** A part that opens no sentence: nothing pending, or marks only. */
  lemma AbsorbedPart(text: Text, part: Text)
    requires text != [] && IsPart(part) && (AllMarks(part) || !Pending(text))
    ensures Sentences(text + part) == Extend(Sentences(text), part)
  {
    hide Terminal, Abbrev, Sentences, Pending;
    forall i | 0 <= i < |part|
      ensures JoinsAt(text, part, i)
    {
      PendingInsidePart(text, part, i);
    }
    NoBreaks(text, part);
  }

  lemma OpensSentence(text: Text, t: Tok)
    requires text != [] && !t.mark && Pending(text)
    ensures Sentences(text + [t]) == Sentences(text) + [[t]]
  {
    hide Pending;
    assert (text + [t])[..|text|] == text;
  }

  /** A part after a pending break: its leading marks close the previous sentence, the rest opens one. */
  lemma BreakingPart(text: Text, part: Text)
    requires text != [] && IsPart(part) && !AllMarks(part) && Pending(text)
    ensures Leading(part) < |part|
    ensures Sentences(text + part) == Extend(Sentences(text), part[..Leading(part)]) + [part[Leading(part)..]]
  {
    hide Terminal, Abbrev, Sentences, Pending, Leading, Extend, AllJoin, IsPart;
    var n := Leading(part);
    assert part[..|part|] == part;
    var marks := part[..n];
    MarksAbsorbed(text, marks);
    PendingInsidePart(text, part, n);
    var head := text + marks;
    OpensSentence(head, part[n]);
    var started, rest := head + [part[n]], part[n + 1..];
    RestJoins(text, part, n);
    NoBreaks(started, rest);
    assert started + rest == text + part;
    ExtendLast(Sentences(head), [part[n]], rest);
    assert [part[n]] + rest == part[n..];
  }

  lemma MarksAbsorbed(text: Text, marks: Text)
    requires text != [] && AllMarks(marks)
    ensures Sentences(text + marks) == Extend(Sentences(text), marks)
  {
    hide Pending, Sentences, Extend;
    NoBreaks(text, marks);
  }

  lemma RestJoins(text: Text, part: Text, n: nat)
    requires IsPart(part) && n < |part| && !part[n].mark
    ensures AllJoin(text + part[..n] + [part[n]], part[n + 1..])
  {
    hide Terminal, Abbrev, Pending;
    var started, rest := text + part[..n] + [part[n]], part[n + 1..];
    forall i | 0 <= i < |rest|
      ensures JoinsAt(started, rest, i)
    {
      var m := n + 1 + i;
      PendingInsidePart(text, part, m);
      assert started + rest[..i] == text + part[..m];
      assert !part[..m][n].mark;
    }
  }

  lemma ExtendLast(s: seq<Text>, a: Text, b: Text)
    ensures Extend(s + [a], b) == s + [a + b]
  {
    assert (s + [a])[..|s|] == s;
  }

  /** Proper parts, all but the last ending in a terminal token; t is the very last token. */
  predicate GoodParts(parts: seq<Text>, t: Tok) {
    && parts != []
    && (forall p :: 0 <= p < |parts| ==> IsPart(parts[p]))
    && (forall p :: 0 <= p < |parts| - 1 ==> EndsTerminal(parts[p]))
    && parts[|parts| - 1] != [] && parts[|parts| - 1][|parts[|parts| - 1]| - 1] == t
  }

  lemma PartGrows(part: Text, t: Tok)
    requires IsPart(part) && !EndsTerminal(part)
    ensures IsPart(part + [t])
  {
    hide Terminal;
  }

  lemma GoodExtend(parts: seq<Text>, last: Tok, t: Tok)
    requires GoodParts(parts, last) && !Terminal(last)
    ensures GoodParts(Extend(parts, [t]), t)
  {
    hide Terminal;
    PartGrows(parts[|parts| - 1], t);
    hide IsPart, EndsTerminal;
    var e := Extend(parts, [t]);
    assert forall p :: 0 <= p < |e| - 1 ==> e[p] == parts[p];
  }

  lemma GoodAppend(parts: seq<Text>, last: Tok, t: Tok)
    requires parts == [] || (GoodParts(parts, last) && Terminal(last))
    ensures GoodParts(parts + [[t]], t)
  {
    hide Terminal;
    assert IsPart([t]);
    if parts != [] {
      assert EndsTerminal(parts[|parts| - 1]);
    }
  }

  lemma PartsStep(text: Text, t: Tok)
    ensures Parts(text + [t]) ==
            if text != [] && !Terminal(text[|text| - 1]) && Parts(text) != [] then Extend(Parts(text), [t])
            else Parts(text) + [[t]]
  {
    hide Terminal;
    assert (text + [t])[..|text|] == text;
  }

  lemma {:induction false} PartsAreParts(text: Text)
    ensures Flatten(Parts(text)) == text
    ensures Parts(text) == [] <==> text == []
    ensures text != [] ==> GoodParts(Parts(text), text[|text| - 1])
  {
    hide Terminal, GoodParts, Extend;
    if text != [] {
      hide Parts, Flatten;
      var front, t := text[..|text| - 1], text[|text| - 1];
      assert text == front + [t];
      PartsAreParts(front);
      PartsStep(front, t);
      if front != [] && !Terminal(front[|front| - 1]) {
        FlattenExtend(Parts(front), [t]);
        GoodExtend(Parts(front), front[|front| - 1], t);
      } else {
        FlattenAppend(Parts(front), [t]);
        GoodAppend(Parts(front), if front != [] then front[|front| - 1] else t, t);
      }
    }
  }

  lemma ExtendForm(s: seq<Text>, more: Text)
    requires s != []
    ensures Extend(s, more) == s[..|s| - 1] + [s[|s| - 1] + more]
  {
  }

  /** The source's loop over the parts, rewriting merged[-1]. */
  method SplitSentences(text: Text) returns (merged: seq<Text>)
    ensures merged == Sentences(text)
  {
    hide Terminal, Abbrev, Parts, Sentences, Pending, Leading;
    var parts := Parts(text);
    PartsAreParts(text);
    merged := [];
    for p := 0 to |parts|
      invariant merged == Sentences(Flatten(parts[..p]))
      invariant merged == [] <==> p == 0
    {
      var part := parts[p];
      assert IsPart(part);
      ghost var done := Flatten(parts[..p]);
      assert parts[..p + 1][..p] == parts[..p];
      assert Flatten(parts[..p + 1]) == done + part;
      if merged == [] {
        assert done == [] && [] + part == part;
        FirstPart(part);
      } else {
        DoneEnd(parts, p);
        LastSentenceEnd(done);
        PendingAfterTerminal(done);
      }
      if merged != [] && AllMarks(part) {
        AbsorbedPart(done, part);
        merged := merged[..|merged| - 1] + [merged[|merged| - 1] + part];
      } else if merged != [] && Abbrev(merged[|merged| - 1][|merged[|merged| - 1]| - 1]) {
        AbsorbedPart(done, part);
        merged := merged[..|merged| - 1] + [merged[|merged| - 1] + part];
      } else {
        var leading := Leading(part);
        if merged != [] {
          BreakingPart(done, part);
          if leading == 0 {
            ExtendTwice(merged, [], part[0]);
            assert part[..0] == [] && part[0..] == part;
          }
        }
        if merged != [] && 0 < leading < |part| {
          merged := merged[..|merged| - 1] + [merged[|merged| - 1] + part[..leading]];
          part := part[leading..];
        }
        merged := merged + [part];
      }
    }
    assert parts[..|parts|] == parts;
  }

  lemma DoneEnd(parts: seq<Text>, p: nat)
    requires 0 < p < |parts|
    requires forall q :: 0 <= q < |parts| - 1 ==> EndsTerminal(parts[q])
    ensures EndsTerminal(Flatten(parts[..p]))
  {
    hide Terminal;
    assert parts[..p][..p - 1] == parts[..p - 1];
    assert EndsTerminal(parts[p - 1]);
  }

  lemma PendingAfterTerminal(text: Text)
    requires EndsTerminal(text)
    ensures Pending(text) <==> !Abbrev(text[|text| - 1])
  {
    hide Terminal, Abbrev;
  }

  // ---------------------------------------------------------------- the filter

  datatype Verdict = Kept | DroppedUncitedNumeric | DroppedUnresolvableCitation

  function Cites(s: Text): seq<string> {
    if s == [] then [] else Cites(s[..|s| - 1]) + s[|s| - 1].cites
  }

  function Tools(s: Text): seq<string> {
    if s == [] then [] else Tools(s[..|s| - 1]) + s[|s| - 1].tools
  }

  /** The caller's rules: which sentences claim a number, which citations resolve, which tools count. */
  datatype Rules = Rules(numeric: Text -> bool, resolves: string -> bool, tools: set<string>)

  /** At least one citation resolves or one tool is allowed. */
  predicate Sourced(rules: Rules, s: Text) {
    || (exists i :: 0 <= i < |Cites(s)| && rules.resolves(Cites(s)[i]))
    || (exists i :: 0 <= i < |Tools(s)| && Tools(s)[i] in rules.tools)
  }

  lemma SourcedIsCited(rules: Rules, s: Text)
    requires Sourced(rules, s)
    ensures Cites(s) != [] || Tools(s) != []
  {
  }

  /** What may be shown: no numeric claim, or a claim with a source. */
  function Grounded(rules: Rules): Text -> bool {
    s => !rules.numeric(s) || Sourced(rules, s)
  }

  function VerdictOf(rules: Rules, s: Text): Verdict {
    if Grounded(rules)(s) then Kept
    else if Cites(s) != [] || Tools(s) != [] then DroppedUnresolvableCitation
    else DroppedUncitedNumeric
  }

  datatype Answer = Answer(text: Text, verdicts: seq<(Text, Verdict)>, handoff: bool, reason: string)

  function KeptSentences(rules: Rules, text: Text): seq<Text> {
    Filter(Sentences(text), Grounded(rules))
  }

  /** Keeps, in order, exactly the grounded sentences; hands off exactly when none is left. The answer's
      constructor, which wants a source for every kept claim and a reason for a handoff, never refuses it. */
  method Validate(text: Text, rules: Rules) returns (a: Answer)
    ensures |a.verdicts| == |Sentences(text)|
    ensures forall i :: 0 <= i < |a.verdicts| ==> a.verdicts[i] == (Sentences(text)[i], VerdictOf(rules, Sentences(text)[i]))
    ensures a.text == Flatten(KeptSentences(rules, text))
    ensures a.handoff <==> KeptSentences(rules, text) == []
    ensures forall i :: 0 <= i < |a.verdicts| && a.verdicts[i].1 == Kept && rules.numeric(a.verdicts[i].0) ==>
      Cites(a.verdicts[i].0) != [] || Tools(a.verdicts[i].0) != []
    ensures a.handoff ==> a.reason != ""
  {
    hide Sentences, Terminal, Abbrev, Sourced, Cites, Tools;
    var sentences := SplitSentences(text);
    var verdicts: seq<(Text, Verdict)> := [];
    var kept: seq<Text> := [];
    for i := 0 to |sentences|
      invariant |verdicts| == i
      invariant forall j :: 0 <= j < i ==> verdicts[j] == (sentences[j], VerdictOf(rules, sentences[j]))
      invariant kept == Filter(sentences[..i], Grounded(rules))
    {
      var s := sentences[i];
      assert sentences[..i + 1] == sentences[..i] + [s];
      FilterAppend(sentences[..i], s, Grounded(rules));
      var verdict := Kept;
      if rules.numeric(s) && !Sourced(rules, s) {
        verdict := if Cites(s) != [] || Tools(s) != [] then DroppedUnresolvableCitation else DroppedUncitedNumeric;
      } else {
        kept := kept + [s];
      }
      verdicts := verdicts + [(s, verdict)];
    }
    assert sentences[..|sentences|] == sentences;
    forall s | Sourced(rules, s)
      ensures Cites(s) != [] || Tools(s) != []
    {
      SourcedIsCited(rules, s);
    }
    if kept == [] {
      var reason := if verdicts == [] then "the model returned no sentences" else "every sentence was dropped";
      return Answer([], verdicts, true, reason);
    }
    return Answer(Flatten(kept), verdicts, false, "");
  }

  // ------------------------------------------------------------------ idempotence

  /** No break inside the sentence, read on its own. */
  predicate Solid(s: Text) {
    s != [] && forall i :: 1 <= i < |s| ==> !BreakBefore(s, i)
  }

  /** Sentences that split back into themselves when joined. */
  predicate WellJoined(k: seq<Text>) {
    && (forall i :: 0 <= i < |k| ==> Solid(k[i]))
    && (forall i :: 0 <= i < |k| - 1 ==> Pending(k[i]))
    && (forall i :: 1 <= i < |k| ==> !k[i][0].mark)
  }

  /** What is pending after a sentence that starts with a word does not depend on what came before. */
  lemma {:induction false} PendingLocal(before: Text, s: Text)
    requires s != [] && (before == [] || !s[0].mark)
    ensures Pending(before + s) == Pending(s)
  {
    hide Terminal, Abbrev;
    var whole := before + s;
    if before == [] {
      assert whole == s;
    } else if |s| > 1 {
      PendingLocal(before, s[..|s| - 1]);
      assert whole[..|whole| - 1] == before + s[..|s| - 1];
    }
  }

  /** Joined sentences split back: nothing pending is lost, nothing new appears. */
  lemma {:induction false} JoinedSplitsBack(k: seq<Text>)
    requires WellJoined(k)
    ensures Sentences(Flatten(k)) == k
    ensures k != [] ==> Flatten(k) != [] && Pending(Flatten(k)) == Pending(k[|k| - 1])
  {
    hide Pending, Sentences, Extend;
    if k == [] {
      assert Sentences([]) == [];
    } else {
      var n := |k| - 1;
      var front, s := k[..n], k[n];
      JoinedSplitsBack(front);
      var before := Flatten(front);
      PendingLocal(before, s);
      var started, rest := before + [s[0]], s[1..];
      if n == 0 {
        assert started == [s[0]];
        SingleToken(s[0]);
      } else {
        OpensSentence(before, s[0]);
      }
      assert Sentences(started) == front + [[s[0]]];
      forall i | 0 <= i < |rest|
        ensures JoinsAt(started, rest, i)
      {
        assert started + rest[..i] == before + s[..1 + i];
        PendingLocal(before, s[..1 + i]);
        assert !BreakBefore(s, 1 + i);
      }
      NoBreaks(started, rest);
      assert started + rest == before + s;
      ExtendLast(front, [s[0]], rest);
      assert [s[0]] + rest == s && front + [s] == k;
    }
  }

  lemma SolidGrows(s: Text, t: Tok)
    requires Solid(s) && (t.mark || !Pending(s))
    ensures Solid(s + [t])
  {
    hide Pending;
    var grown := s + [t];
    forall i | 1 <= i < |grown|
      ensures !BreakBefore(grown, i)
    {
      if i < |s| {
        assert !BreakBefore(s, i);
        assert grown[..i] == s[..i];
      } else {
        assert grown[..i] == s;
      }
    }
  }

  /** The last token decides what is pending, given what was pending before it. */
  lemma PendingStep(a: Text, b: Text, t: Tok)
    requires Pending(a) == Pending(b)
    ensures Pending(a + [t]) == Pending(b + [t])
  {
    hide Terminal, Abbrev;
    assert (a + [t])[..|a|] == a && (b + [t])[..|b|] == b;
  }

  lemma WellJoinedExtend(k: seq<Text>, t: Tok)
    requires k != [] && WellJoined(k) && (t.mark || !Pending(k[|k| - 1]))
    ensures WellJoined(Extend(k, [t]))
  {
    var n := |k| - 1;
    var e := Extend(k, [t]);
    assert Solid(k[n]);
    SolidGrows(k[n], t);
    hide Pending, Solid;
    assert e[n] == k[n] + [t] && forall p :: 0 <= p < n ==> e[p] == k[p];
    SolidNotEmpty(k[n]);
    assert e[n][0] == k[n][0];
  }

  lemma SolidNotEmpty(s: Text)
    requires Solid(s)
    ensures s != []
  {
  }

  lemma WellJoinedAppend(k: seq<Text>, t: Tok)
    requires WellJoined(k) && (k != [] ==> Pending(k[|k| - 1]) && !t.mark)
    ensures WellJoined(k + [[t]])
  {
    SolidToken(t);
    hide Pending, Solid;
  }

  lemma {:induction false} SentencesWellJoined(text: Text)
    ensures WellJoined(Sentences(text))
    ensures text != [] ==> Pending(text) == Pending(Sentences(text)[|Sentences(text)| - 1])
  {
    hide Pending, Solid, WellJoined, Extend;
    if text == [] {
      EmptyWellJoined();
    } else {
      var k := |text| - 1;
      var front, t := Sentences(text[..k]), text[k];
      SentencesWellJoined(text[..k]);
      assert text == text[..k] + [t];
      if k == 0 || BreakBefore(text, k) {
        PendingLocal(text[..k], [t]);
        WellJoinedAppend(front, t);
      } else {
        var last := front[|front| - 1];
        WellJoinedExtend(front, t);
        PendingStep(text[..k], last, t);
        ExtendForm(front, [t]);
      }
    }
  }

  lemma EmptyWellJoined()
    ensures WellJoined([])
  {
  }

  lemma SolidToken(t: Tok)
    ensures Solid([t])
  {
  }

  lemma {:induction false} FilterWellJoined(k: seq<Text>, keep: Text -> bool)
    requires WellJoined(k)
    ensures WellJoined(Filter(k, keep))
    ensures forall i :: 0 <= i < |Filter(k, keep)| ==> Filter(k, keep)[i] in k
  {
    hide Solid, Pending;
    if k != [] {
      var n := |k| - 1;
      FilterWellJoined(k[..n], keep);
      var kept := Filter(k[..n], keep);
      if kept != [] {
        ClosedInside(k, kept[|kept| - 1]);
      }
    }
  }

  lemma ClosedInside(k: seq<Text>, s: Text)
    requires k != [] && WellJoined(k) && s in k[..|k| - 1]
    ensures Pending(s)
  {
    var i :| 0 <= i < |k| - 1 && k[i] == s;
  }

  lemma {:induction false} FilterOfKept(s: seq<Text>, keep: Text -> bool)
    ensures Filter(Filter(s, keep), keep) == Filter(s, keep)
  {
    if s != [] {
      var k := |s| - 1;
      FilterOfKept(s[..k], keep);
      if keep(s[k]) {
        FilterAppend(Filter(s[..k], keep), s[k], keep);
      }
    }
  }

  /** Re-validating the shown text with the same rules changes nothing: it splits into the same
      sentences, all are kept, and the shown text is the same. */
  lemma ValidationIsIdempotent(rules: Rules, text: Text)
    ensures var shown := Flatten(KeptSentences(rules, text));
            && Sentences(shown) == KeptSentences(rules, text)
            && KeptSentences(rules, shown) == KeptSentences(rules, text)
            && Flatten(KeptSentences(rules, shown)) == shown
  {
    hide WellJoined, Sentences, Grounded, Flatten;
    SentencesWellJoined(text);
    FilterWellJoined(Sentences(text), Grounded(rules));
    JoinedSplitsBack(KeptSentences(rules, text));
    FilterOfKept(Sentences(text), Grounded(rules));
  }

  /** A marker always belongs to the sentence it follows: no sentence after the first starts with one. */
  lemma NoLeadingMarks(text: Text, i: nat)
    requires 0 < i < |Sentences(text)|
    ensures Sentences(text)[i] != [] && !Sentences(text)[i][0].mark
  {
    hide Terminal, Abbrev, Pending;
    SentencesWellJoined(text);
    assert Solid(Sentences(text)[i]);
  }

  // ----------------------------------------------------- the abbreviation test

  const YEARS := Tok("years.", false, [], [])

  /** The test is a suffix test: "years." ends like "rs." without being an abbreviation. */
  lemma SuffixIsNotAbbreviation()
    ensures Terminal(YEARS) && Abbrev(YEARS) && Lower(YEARS.text) !in ABBREVIATIONS
  {
    var lower := Lower(YEARS.text);
    assert lower == "years.";
    assert ABBREVIATIONS[0] == "rs.";
    assert EndsWith(lower, ABBREVIATIONS[0]) by {
      assert lower[3..] == "rs.";
    }
    forall k | 0 <= k < |ABBREVIATIONS|
      ensures lower != ABBREVIATIONS[k]
    {
      assert |ABBREVIATIONS[k]| < 6;
    }
  }

  /** Between two words the splitter breaks after a terminal word exactly when the suffix test fails. */
  lemma BreakAfterWord(text: Text, word: Tok, next: Tok)
    requires !next.mark && Terminal(word)
    ensures |Sentences(text + [word, next])| == |Sentences(text + [word])| + (if Abbrev(word) then 0 else 1)
  {
    hide Terminal, Abbrev;
    var before, whole := text + [word], text + [word, next];
    assert whole[..|whole| - 1] == before;
    PendingAfterTerminal(before);
  }

  /** So a claim that ends in "years." borrows the next sentence's citation and is kept. */
  lemma BorrowedCitation(rules: Rules, claim: Tok, word: Tok, mark: Tok, cite: string)
    requires !claim.mark && !Terminal(claim) && claim.cites == [] && !word.mark && !Terminal(word) && word.cites == []
    requires mark.mark && mark.cites == [cite] && rules.resolves(cite)
    ensures Sentences([claim, YEARS, word, mark]) == [[claim, YEARS, word, mark]]
    ensures KeptSentences(rules, [claim, YEARS, word, mark]) == [[claim, YEARS, word, mark]]
  {
    hide Terminal, Abbrev;
    SuffixIsNotAbbreviation();
    var all := [claim, YEARS, word, mark];
    var first, rest := [claim], [YEARS, word, mark];
    SingleToken(claim);
    assert first + rest == all;
    PendingAfterTerminal([claim, YEARS]);
    assert first + rest[..0] == [claim] && first + rest[..1] == [claim, YEARS];
    assert !Pending([claim]);
    NoBreaks(first, rest);
    assert all[..3] == [claim, YEARS, word];
    assert Cites(all) == Cites(all[..3]) + [cite];
    assert Sourced(rules, all) by {
      assert rules.resolves(Cites(all)[|Cites(all)| - 1]);
    }
    var whole := [all];
    assert Filter(whole[..0], Grounded(rules)) == [];
    assert Filter(whole, Grounded(rules)) == whole;
  }

  // ------------------------------------------------- the rules, token by token

  /** One token backs a claim: it carries a citation that resolves, or names an allowed tool. */
  ghost predicate Backs(rules: Rules, t: Tok) {
    (exists c :: c in t.cites && rules.resolves(c)) || (exists u :: u in t.tools && u in rules.tools)
  }

  lemma {:induction false} CitesMembers(s: Text, c: string)
    ensures c in Cites(s) <==> exists i :: 0 <= i < |s| && c in s[i].cites
  {
    if s != [] {
      var k := |s| - 1;
      CitesMembers(s[..k], c);
      assert forall i :: 0 <= i < |s| && c in s[i].cites ==> i == k || c in s[..k][i].cites;
    }
  }

  lemma {:induction false} ToolsMembers(s: Text, u: string)
    ensures u in Tools(s) <==> exists i :: 0 <= i < |s| && u in s[i].tools
  {
    if s != [] {
      var k := |s| - 1;
      ToolsMembers(s[..k], u);
      assert forall i :: 0 <= i < |s| && u in s[i].tools ==> i == k || u in s[..k][i].tools;
    }
  }

  lemma SourcedByToken(rules: Rules, s: Text)
    ensures Sourced(rules, s) <==> exists i :: 0 <= i < |s| && Backs(rules, s[i])
  {
    if Sourced(rules, s) {
      if i :| 0 <= i < |Cites(s)| && rules.resolves(Cites(s)[i]) {
        CitesMembers(s, Cites(s)[i]);
      } else {
        var i :| 0 <= i < |Tools(s)| && Tools(s)[i] in rules.tools;
        ToolsMembers(s, Tools(s)[i]);
      }
    }
    if i :| 0 <= i < |s| && Backs(rules, s[i]) {
      if c :| c in s[i].cites && rules.resolves(c) {
        CitesMembers(s, c);
      } else {
        var u :| u in s[i].tools && u in rules.tools;
        ToolsMembers(s, u);
      }
    }
  }

  /** The three verdicts, by what single tokens carry: a sentence without a numeric claim is kept; one
      with a claim is kept exactly when some token backs it, and otherwise reported as uncited exactly
      when no token carries a citation or a tool at all. */
  lemma VerdictByTokens(rules: Rules, s: Text)
    ensures VerdictOf(rules, s) == Kept <==> !rules.numeric(s) || exists i :: 0 <= i < |s| && Backs(rules, s[i])
    ensures VerdictOf(rules, s) == DroppedUncitedNumeric <==>
      rules.numeric(s) && forall i :: 0 <= i < |s| ==> s[i].cites == [] && s[i].tools == []
  {
    hide Backs;
    SourcedByToken(rules, s);
    if Cites(s) != [] || Tools(s) != [] {
      SomeToken(s);
    } else {
      NoToken(s);
      if Sourced(rules, s) {
        SourcedIsCited(rules, s);
      }
    }
  }

  lemma SomeToken(s: Text)
    requires Cites(s) != [] || Tools(s) != []
    ensures exists i :: 0 <= i < |s| && (s[i].cites != [] || s[i].tools != [])
  {
    if Cites(s) != [] {
      CitesMembers(s, Cites(s)[0]);
    } else {
      ToolsMembers(s, Tools(s)[0]);
    }
  }

  lemma NoToken(s: Text)
    requires Cites(s) == [] && Tools(s) == []
    ensures forall i :: 0 <= i < |s| ==> s[i].cites == [] && s[i].tools == []
  {
    forall i | 0 <= i < |s|
      ensures s[i].cites == [] && s[i].tools == []
    {
      if s[i].cites != [] {
        CitesMembers(s, s[i].cites[0]);
      }
      if s[i].tools != [] {
        ToolsMembers(s, s[i].tools[0]);
      }
    }
  }

  /** So no number reaches the reader unbacked: a sentence is shown exactly when it is one of the
      text's sentences and claims no number or holds a token that backs it. */
  lemma ShownIsBacked(rules: Rules, text: Text, s: Text)
    ensures s in KeptSentences(rules, text) <==>
      s in Sentences(text) && (!rules.numeric(s) || exists i :: 0 <= i < |s| && Backs(rules, s[i]))
  {
    hide Sentences, Backs, Sourced;
    FilterMembers(Sentences(text), Grounded(rules), s);
    SourcedByToken(rules, s);
  }

  /** Between a word and the next word a break falls exactly where the word ends in an exclamation
      mark, a question mark or a danda, or in a full stop without ending in one of the abbreviations,
      in either case of its letters. */
  lemma BreakExactly(text: Text, word: Tok, next: Tok)
    requires !next.mark && !word.mark && word.text != ""
    ensures |Sentences(text + [word, next])| == |Sentences(text + [word])| + 1 <==>
      var c := word.text[|word.text| - 1];
      c == '!' || c == '?' || c == '\U{0964}' || (c == '.' && !Abbrev(word))
  {
    hide Lower;
    var before, whole := text + [word], text + [word, next];
    assert whole[..|whole| - 1] == before && before[..|text|] == text;
    var c := word.text[|word.text| - 1];
    if Abbrev(word) {
      var k :| 0 <= k < |ABBREVIATIONS| && EndsWith(Lower(word.text), ABBREVIATIONS[k]);
      FullStops(k);
      assert Lower(word.text)[|word.text| - 1] == '.';
      LoweredStop(c);
    }
  }

  lemma FullStops(k: nat)
    requires k < |ABBREVIATIONS|
    ensures var a := ABBREVIATIONS[k]; |a| > 1 && a[|a| - 1] == '.'
  {
  }

  lemma LoweredStop(c: char)
    ensures LowerChar(c) == '.' <==> c == '.'
  {
  }

  /** Capitals do not matter: "RS.", "Rs." and "rs." are the same abbreviation, on their own or after
      any prefix such as an opening bracket. */
  lemma CapitalsAbbreviate(prefix: string, s: string, k: nat)
    requires k < |ABBREVIATIONS| && Lower(s) == ABBREVIATIONS[k]
    ensures Abbrev(Tok(prefix + s, false, [], []))
    ensures Lower("RS.") == Lower("Rs.") == Lower("rs.") == ABBREVIATIONS[0]
  {
    assert Lower(prefix + s)[|prefix|..] == Lower(s);
    assert EndsWith(Lower(prefix + s), ABBREVIATIONS[k]);
    assert Lower("RS.") == "rs." && Lower("Rs.") == "rs." && Lower("rs.") == "rs.";
  }
}
