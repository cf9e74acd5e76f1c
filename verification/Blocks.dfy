/** The line-driven block parser and its heading trail (assistant/chunking.py). */
module Blocks {
  import opened Strings

  /** What the line patterns say about a line, in the order the parser tests them. */
  datatype LineKind = HeadingLine(level: nat, title: string) | TableRow | Blank | ListItem | Plain

  datatype Line = Line(raw: string, kind: LineKind)

  datatype BlockKind = Heading | Paragraph | Table | List

  datatype Block = Block(kind: BlockKind, text: string, path: seq<string>)

  /** Blank lines are those without ink; heading levels are 1 to 6. */
  predicate Classified(line: Line) {
    && (line.kind == Blank <==> !Inked(line.raw))
    && (line.kind.HeadingLine? ==> 1 <= line.kind.level <= 6)
  }

  ghost predicate AllClassified(lines: seq<Line>) {
    forall i :: 0 <= i < |lines| ==> Classified(lines[i])
  }

  /** A line that goes into the buffer, and the kind of buffer it goes into. */
  predicate IsBody(line: Line) {
    line.kind.TableRow? || line.kind.ListItem? || line.kind.Plain?
  }

  function KindOf(line: Line): BlockKind {
    match line.kind
    case TableRow => Table
    case ListItem => List
    case HeadingLine(_, _) => Heading
    case _ => Paragraph
  }

  // ----------------------------------------------------------- the heading trail

  function Take<T>(s: seq<T>, n: int): (r: seq<T>)
    ensures |r| <= |s|
  {
    if n < 0 then [] else if n < |s| then s[..n] else s
  }

  /** del path[level-1:]; path.append(title) */
  function PathAfter(path: seq<string>, level: nat, title: string): (r: seq<string>)
    ensures level >= 1 ==> |r| <= level
  {
    Take(path, level - 1) + [title]
  }

  datatype HeadingMark = HeadingMark(level: nat, title: string)

  /** The heading lines among some lines. */
  function Headings(lines: seq<Line>): seq<HeadingMark> {
    if lines == [] then []
    else
      var rest := Headings(lines[..|lines| - 1]);
      match lines[|lines| - 1].kind
      case HeadingLine(level, title) => rest + [HeadingMark(level, title)]
      case _ => rest
  }

  /** The trail the parser holds after these headings, starting from a given one. */
  function PathFrom(path: seq<string>, hs: seq<HeadingMark>): seq<string> {
    if hs == [] then path
    else
      var h := hs[|hs| - 1];
      PathAfter(PathFrom(path, hs[..|hs| - 1]), h.level, h.title)
  }

  // -------------------------------------------------------------- reference parse

  /** A block before rendering: its kind, its lines and its trail. */
  datatype Segment = Segment(kind: BlockKind, lines: seq<Line>, path: seq<string>)

  function Raws(lines: seq<Line>): (r: seq<string>)
    ensures |r| == |lines|
    ensures forall i :: 0 <= i < |lines| ==> r[i] == lines[i].raw
  {
    seq(|lines|, i requires 0 <= i < |lines| => lines[i].raw)
  }

  function Render(s: Segment): Block {
    Block(s.kind, Strip(Join("\n", Raws(s.lines))), s.path)
  }

  function RenderAll(segments: seq<Segment>): (r: seq<Block>)
    ensures |r| == |segments|
    ensures forall i :: 0 <= i < |segments| ==> r[i] == Render(segments[i])
  {
    seq(|segments|, i requires 0 <= i < |segments| => Render(segments[i]))
  }

  /** Length of the longest prefix of body lines of one kind. */
  function RunLength(lines: seq<Line>): (n: nat)
    requires lines != [] && IsBody(lines[0])
    ensures 1 <= n <= |lines|
    ensures forall i :: 0 <= i < n ==> IsBody(lines[i]) && KindOf(lines[i]) == KindOf(lines[0])
    ensures n < |lines| ==> !(IsBody(lines[n]) && KindOf(lines[n]) == KindOf(lines[0]))
  {
    if |lines| == 1 || !(IsBody(lines[1]) && KindOf(lines[1]) == KindOf(lines[0])) then 1
    else 1 + RunLength(lines[1..])
  }

  /** Blank lines separate, headings stand alone, and everything else groups into maximal runs. */
  function Segments(lines: seq<Line>, path: seq<string>): seq<Segment>
    decreases |lines|
  {
    if lines == [] then []
    else
      match lines[0].kind
      case Blank => Segments(lines[1..], path)
      case HeadingLine(level, title) =>
        var p := PathAfter(path, level, title);
        [Segment(Heading, [lines[0]], p)] + Segments(lines[1..], p)
      case _ =>
        var n := RunLength(lines);
        [Segment(KindOf(lines[0]), lines[..n], path)] + Segments(lines[n..], path)
  }

  // ------------------------------------------------------------------- the parser

  ghost predicate OneKind(buffer: seq<Line>, kind: BlockKind) {
    forall i :: 0 <= i < |buffer| ==> IsBody(buffer[i]) && KindOf(buffer[i]) == kind
  }

  /** The line does not continue a buffer of this kind. */
  predicate Stops(line: Line, kind: BlockKind) {
    !(IsBody(line) && KindOf(line) == kind)
  }

  lemma {:induction false} BufferIsRun(buffer: seq<Line>, rest: seq<Line>, kind: BlockKind)
    requires buffer != [] && OneKind(buffer, kind)
    requires rest == [] || Stops(rest[0], kind)
    ensures RunLength(buffer + rest) == |buffer|
  {
    var all := buffer + rest;
    assert forall i :: 0 <= i < |buffer| ==> all[i] == buffer[i];
    if |buffer| > 1 {
      BufferIsRun(buffer[1..], rest, kind);
      assert all[1..] == buffer[1..] + rest;
      assert all[1] == buffer[1];
    }
  }

  /** A closed buffer is the next segment. */
  lemma FlushStep(buffer: seq<Line>, rest: seq<Line>, kind: BlockKind, path: seq<string>)
    requires buffer != [] && OneKind(buffer, kind)
    requires rest == [] || Stops(rest[0], kind)
    ensures Segments(buffer + rest, path) == [Segment(kind, buffer, path)] + Segments(rest, path)
  {
    BufferIsRun(buffer, rest, kind);
    var all := buffer + rest;
    assert all[0] == buffer[0] && all[..|buffer|] == buffer && all[|buffer|..] == rest;
    assert IsBody(buffer[0]);
  }

  lemma BufferInked(buffer: seq<Line>, kind: BlockKind)
    requires buffer != [] && OneKind(buffer, kind) && AllClassified(buffer)
    ensures Strip(Join("\n", Raws(buffer))) != ""
    ensures Trimmed(Strip(Join("\n", Raws(buffer))))
  {
    assert IsBody(buffer[0]) && Classified(buffer[0]);
    JoinInked("\n", Raws(buffer), 0);
    StripTrims(Join("\n", Raws(buffer)));
  }

  /** What the parser still owes: the blocks emitted so far, then the segments of the buffer and the rest. */
  ghost predicate Owes(lines: seq<Line>, done: seq<Segment>, buffer: seq<Line>, kind: BlockKind, rest: seq<Line>, path: seq<string>) {
    && OneKind(buffer, kind)
    && (buffer == [] ==> kind == Paragraph)
    && Segments(lines, []) == done + Segments(buffer + rest, path)
  }

  lemma OwesFlushed(lines: seq<Line>, done: seq<Segment>, buffer: seq<Line>, kind: BlockKind, rest: seq<Line>, path: seq<string>)
    requires Owes(lines, done, buffer, kind, rest, path)
    requires rest == [] || Stops(rest[0], kind) || buffer == []
    ensures Owes(lines, if buffer == [] then done else done + [Segment(kind, buffer, path)], [], Paragraph, rest, path)
  {
    hide Segments, Stops;
    assert [] + rest == rest;
    if buffer != [] {
      FlushStep(buffer, rest, kind, path);
      assert done + ([Segment(kind, buffer, path)] + Segments(rest, path)) == done + [Segment(kind, buffer, path)] + Segments(rest, path);
    }
  }

  lemma OwesBuffered(lines: seq<Line>, done: seq<Segment>, buffer: seq<Line>, kind: BlockKind, rest: seq<Line>, path: seq<string>, kind': BlockKind)
    requires rest != [] && IsBody(rest[0]) && KindOf(rest[0]) == kind'
    requires Owes(lines, done, buffer, kind, rest, path) && (buffer == [] || kind == kind')
    ensures Owes(lines, done, buffer + [rest[0]], kind', rest[1..], path)
  {
    hide Segments;
    assert buffer + rest == (buffer + [rest[0]]) + rest[1..];
  }

  lemma OwesBlank(lines: seq<Line>, done: seq<Segment>, rest: seq<Line>, path: seq<string>)
    requires rest != [] && rest[0].kind == Blank && Owes(lines, done, [], Paragraph, rest, path)
    ensures Owes(lines, done, [], Paragraph, rest[1..], path)
  {
    assert [] + rest == rest && [] + rest[1..] == rest[1..];
  }

  lemma OwesHeading(lines: seq<Line>, done: seq<Segment>, rest: seq<Line>, path: seq<string>, level: nat, title: string)
    requires rest != [] && rest[0].kind == HeadingLine(level, title) && Owes(lines, done, [], Paragraph, rest, path)
    ensures var p := PathAfter(path, level, title);
            Owes(lines, done + [Segment(Heading, [rest[0]], p)], [], Paragraph, rest[1..], p)
  {
    var p := PathAfter(path, level, title);
    assert [] + rest == rest && [] + rest[1..] == rest[1..];
    assert done + ([Segment(Heading, [rest[0]], p)] + Segments(rest[1..], p)) == done + [Segment(Heading, [rest[0]], p)] + Segments(rest[1..], p);
  }

  lemma RenderAppend(done: seq<Segment>, s: Segment)
    ensures RenderAll(done + [s]) == RenderAll(done) + [Render(s)]
  {
    hide Render;
  }

  lemma RenderHeading(line: Line, path: seq<string>)
    ensures Render(Segment(Heading, [line], path)) == Block(Heading, Strip(line.raw), path)
  {
    assert Raws([line]) == [line.raw];
  }

  /** `flush`: emits the buffer as a block when its stripped text is not empty. */
  method Flush(blocks: seq<Block>, buffer: seq<Line>, kind: BlockKind, path: seq<string>,
               ghost lines: seq<Line>, ghost done: seq<Segment>, ghost rest: seq<Line>)
    returns (r: seq<Block>, ghost done': seq<Segment>)
    requires Owes(lines, done, buffer, kind, rest, path) && AllClassified(buffer) && blocks == RenderAll(done)
    requires rest == [] || Stops(rest[0], kind) || buffer == []
    ensures Owes(lines, done', [], Paragraph, rest, path)
    ensures r == RenderAll(done')
    ensures r == if buffer == [] then blocks else blocks + [Render(Segment(kind, buffer, path))]
  {
    hide Segments, Stops, Classified, IsBody;
    OwesFlushed(lines, done, buffer, kind, rest, path);
    r, done' := blocks, done;
    var body := Strip(Join("\n", Raws(buffer)));
    if buffer != [] {
      BufferInked(buffer, kind);
      RenderAppend(done, Segment(kind, buffer, path));
      done' := done + [Segment(kind, buffer, path)];
    } else {
      BlankStrips("");
    }
    if body != "" {
      r := r + [Block(kind, body, path)];
    }
  }

  /** The parser's loop over lines, with its buffer, buffer kind and heading stack. */
  method ParseBlocks(lines: seq<Line>) returns (blocks: seq<Block>)
    requires AllClassified(lines)
    ensures blocks == RenderAll(Segments(lines, []))
  {
    hide Segments, Owes, Classified, IsBody, PathAfter, Stops, OneKind, Render;
    blocks := [];
    var path: seq<string> := [];
    var buffer: seq<Line> := [];
    var bufferKind := Paragraph;
    ghost var done: seq<Segment> := [];
    OwesStart(lines);
    for i := 0 to |lines|
      invariant Owes(lines, done, buffer, bufferKind, lines[i..], path)
      invariant AllClassified(buffer)
      invariant blocks == RenderAll(done)
    {
      var line := lines[i];
      ghost var rest := lines[i..];
      assert rest[0] == line && rest[1..] == lines[i + 1..];
      OwesKind(lines, done, buffer, bufferKind, rest, path);
      LineCases(line);
      StopsCases(line, bufferKind);
      if line.kind.HeadingLine? {
        blocks, done := Flush(blocks, buffer, bufferKind, path, lines, done, rest);
        buffer, bufferKind := [], Paragraph;
        OwesHeading(lines, done, rest, path, line.kind.level, line.kind.title);
        path := PathAfter(path, line.kind.level, line.kind.title);
        RenderHeading(line, path);
        RenderAppend(done, Segment(Heading, [line], path));
        done := done + [Segment(Heading, [line], path)];
        blocks := blocks + [Block(Heading, Strip(line.raw), path)];
      } else if line.kind.TableRow? {
        if bufferKind != Table {
          blocks, done := Flush(blocks, buffer, bufferKind, path, lines, done, rest);
          buffer, bufferKind := [], Paragraph;
        }
        OwesBuffered(lines, done, buffer, bufferKind, rest, path, Table);
        buffer, bufferKind := buffer + [line], Table;
      } else {
        if bufferKind == Table {
          blocks, done := Flush(blocks, buffer, bufferKind, path, lines, done, rest);
          buffer, bufferKind := [], Paragraph;
        }
        if line.kind.Blank? {
          blocks, done := Flush(blocks, buffer, bufferKind, path, lines, done, rest);
          buffer, bufferKind := [], Paragraph;
          OwesBlank(lines, done, rest, path);
        } else if line.kind.ListItem? {
          if bufferKind != List {
            blocks, done := Flush(blocks, buffer, bufferKind, path, lines, done, rest);
            buffer, bufferKind := [], Paragraph;
          }
          OwesBuffered(lines, done, buffer, bufferKind, rest, path, List);
          buffer, bufferKind := buffer + [line], List;
        } else {
          if bufferKind == List {
            blocks, done := Flush(blocks, buffer, bufferKind, path, lines, done, rest);
            buffer, bufferKind := [], Paragraph;
          }
          OwesBuffered(lines, done, buffer, bufferKind, rest, path, Paragraph);
          buffer := buffer + [line];
        }
      }
    }
    blocks, done := Flush(blocks, buffer, bufferKind, path, lines, done, lines[|lines|..]);
    OwesNothing(lines, done, path);
  }

  lemma OwesStart(lines: seq<Line>)
    ensures Owes(lines, [], [], Paragraph, lines[0..], [])
  {
    assert [] + lines[0..] == lines && [] + Segments(lines, []) == Segments(lines, []);
  }

  lemma OwesNothing(lines: seq<Line>, done: seq<Segment>, path: seq<string>)
    requires Owes(lines, done, [], Paragraph, [], path)
    ensures done == Segments(lines, [])
  {
    var nothing: seq<Line> := [];
    assert [] + nothing == nothing && Segments(nothing, path) == [];
  }

  lemma OwesKind(lines: seq<Line>, done: seq<Segment>, buffer: seq<Line>, kind: BlockKind, rest: seq<Line>, path: seq<string>)
    requires Owes(lines, done, buffer, kind, rest, path)
    ensures OneKind(buffer, kind) && (buffer == [] ==> kind == Paragraph)
    ensures kind != Heading
  {
    if buffer != [] {
      assert KindOf(buffer[0]) == kind && IsBody(buffer[0]);
    }
  }

  lemma LineCases(line: Line)
    ensures IsBody(line) <==> !line.kind.HeadingLine? && !line.kind.Blank?
  {
  }

  /** A buffer is never of heading kind, and any line outside its kind stops it. */
  lemma StopsCases(line: Line, kind: BlockKind)
    ensures line.kind.HeadingLine? || line.kind.Blank? || KindOf(line) != kind ==> Stops(line, kind)
  {
  }

  // --------------------------------------------------- every line in one block

  function NonBlank(lines: seq<Line>): seq<Line> {
    if lines == [] then []
    else if lines[0].kind == Blank then NonBlank(lines[1..])
    else [lines[0]] + NonBlank(lines[1..])
  }

  function AllLines(segments: seq<Segment>): seq<Line> {
    if segments == [] then [] else segments[0].lines + AllLines(segments[1..])
  }

  lemma {:induction false} NonBlankConcat(a: seq<Line>, b: seq<Line>)
    ensures NonBlank(a + b) == NonBlank(a) + NonBlank(b)
  {
    if a == [] {
      assert a + b == b;
    } else {
      NonBlankConcat(a[1..], b);
      assert (a + b)[1..] == a[1..] + b;
    }
  }

  lemma {:induction false} NonBlankBody(lines: seq<Line>)
    requires forall i :: 0 <= i < |lines| ==> IsBody(lines[i])
    ensures NonBlank(lines) == lines
  {
    if lines != [] {
      NonBlankBody(lines[1..]);
      assert IsBody(lines[0]);
      assert lines == [lines[0]] + lines[1..];
    }
  }

  lemma RunLines(lines: seq<Line>)
    requires lines != [] && IsBody(lines[0])
    ensures var n := RunLength(lines);
            NonBlank(lines) == lines[..n] + NonBlank(lines[n..])
  {
    var n := RunLength(lines);
    assert lines == lines[..n] + lines[n..];
    NonBlankBody(lines[..n]);
    NonBlankConcat(lines[..n], lines[n..]);
  }

  /** The blocks hold every non-blank line exactly once, in order. */
  lemma {:induction false} BlocksKeepLines(lines: seq<Line>, path: seq<string>)
    ensures AllLines(Segments(lines, path)) == NonBlank(lines)
    decreases |lines|
  {
    hide RunLength, KindOf, PathAfter;
    if lines != [] {
      match lines[0].kind
      case Blank => BlocksKeepLines(lines[1..], path);
      case HeadingLine(level, title) =>
        var p := PathAfter(path, level, title);
        BlocksKeepLines(lines[1..], p);
        HeadSegment(Segment(Heading, [lines[0]], p), Segments(lines[1..], p));
      case _ =>
        var n := RunLength(lines);
        BlocksKeepLines(lines[n..], path);
        HeadSegment(Segment(KindOf(lines[0]), lines[..n], path), Segments(lines[n..], path));
        RunLines(lines);
    }
  }

  lemma HeadSegment(s: Segment, rest: seq<Segment>)
    ensures AllLines([s] + rest) == s.lines + AllLines(rest)
  {
    assert ([s] + rest)[1..] == rest;
  }

  // ------------------------------------------------------- what a block's text says

  /** The line goes into a segment of this kind, and has ink. */
  predicate BelongsIn(line: Line, kind: BlockKind) {
    KindOf(line) == kind && line.kind != Blank && Inked(line.raw)
  }

  ghost predicate WellMade(s: Segment) {
    s.lines != [] && forall i :: 0 <= i < |s.lines| ==> BelongsIn(s.lines[i], s.kind)
  }

  lemma RunWellMade(lines: seq<Line>, path: seq<string>)
    requires lines != [] && IsBody(lines[0]) && AllClassified(lines)
    ensures WellMade(Segment(KindOf(lines[0]), lines[..RunLength(lines)], path))
  {
    hide KindOf, Inked;
    var n := RunLength(lines);
    forall i | 0 <= i < n
      ensures BelongsIn(lines[i], KindOf(lines[0]))
    {
      assert Classified(lines[i]);
    }
  }

  lemma HeadingWellMade(line: Line, path: seq<string>)
    requires line.kind.HeadingLine? && Classified(line)
    ensures WellMade(Segment(Heading, [line], path))
  {
  }

  lemma {:induction false} SegmentsWellMade(lines: seq<Line>, path: seq<string>)
    requires AllClassified(lines)
    ensures forall k :: 0 <= k < |Segments(lines, path)| ==> WellMade(Segments(lines, path)[k])
    decreases |lines|
  {
    hide RunLength, KindOf, PathAfter, WellMade, Classified;
    if lines != [] {
      match lines[0].kind
      case Blank => SegmentsWellMade(lines[1..], path);
      case HeadingLine(level, title) =>
        HeadingWellMade(lines[0], PathAfter(path, level, title));
        SegmentsWellMade(lines[1..], PathAfter(path, level, title));
      case _ =>
        RunWellMade(lines, path);
        SegmentsWellMade(lines[RunLength(lines)..], path);
    }
  }

  /** A block's text is its lines, newline by newline, each but for white space at its ends. */
  lemma TextIsLines(s: Segment) returns (parts: seq<string>)
    requires WellMade(s)
    ensures Render(s).text == Join("\n", parts) && SameInk(parts, Raws(s.lines))
    ensures Render(s).kind == s.kind && Render(s).path == s.path
  {
    hide Inked, Strip, Join;
    forall i | 0 <= i < |s.lines|
      ensures Inked(Raws(s.lines)[i])
    {
      assert BelongsIn(s.lines[i], s.kind);
    }
    parts := StripJoined("\n", Raws(s.lines));
  }

  lemma {:induction false} RawsConcat(a: seq<Line>, b: seq<Line>)
    ensures Raws(a + b) == Raws(a) + Raws(b)
  {
  }

  lemma SameInkConcat(a: seq<string>, b: seq<string>, c: seq<string>, d: seq<string>)
    requires SameInk(a, b) && SameInk(c, d)
    ensures SameInk(a + c, b + d)
  {
    hide Strip;
  }

  /** The parser is a transcript: split at newlines, the texts of the blocks, one after the other, are the
      non-blank lines of the document, each but for white space at its ends. */
  lemma {:induction false} BlocksAreTranscript(segments: seq<Segment>) returns (parts: seq<seq<string>>)
    requires forall k :: 0 <= k < |segments| ==> WellMade(segments[k])
    ensures |parts| == |segments|
    ensures forall k :: 0 <= k < |segments| ==> RenderAll(segments)[k].text == Join("\n", parts[k]) && parts[k] != []
    ensures SameInk(Joined(parts), Raws(AllLines(segments)))
  {
    hide WellMade, Strip, Join, Render;
    parts := [];
    if segments != [] {
      var rest := BlocksAreTranscript(segments[1..]);
      var first := TextIsLines(segments[0]);
      parts := [first] + rest;
      assert parts[1..] == rest;
      RawsConcat(segments[0].lines, AllLines(segments[1..]));
      SameInkConcat(first, Raws(segments[0].lines), Joined(rest), Raws(AllLines(segments[1..])));
      NonEmptySegment(segments[0]);
    }
  }

  lemma NonEmptySegment(s: Segment)
    requires WellMade(s)
    ensures s.lines != []
  {
  }

  function Joined(parts: seq<seq<string>>): seq<string> {
    if parts == [] then [] else parts[0] + Joined(parts[1..])
  }

  lemma TranscriptOf(lines: seq<Line>) returns (parts: seq<seq<string>>)
    requires AllClassified(lines)
    ensures var blocks := RenderAll(Segments(lines, []));
            && |parts| == |blocks|
            && (forall k :: 0 <= k < |blocks| ==> blocks[k].text == Join("\n", parts[k]) && parts[k] != [])
            && SameInk(Joined(parts), Raws(NonBlank(lines)))
  {
    hide Segments, WellMade, Render, Join, SameInk, NonBlank;
    SegmentsWellMade(lines, []);
    BlocksKeepLines(lines, []);
    parts := BlocksAreTranscript(Segments(lines, []));
  }

  lemma {:induction false} LineHolder(segments: seq<Segment>, line: Line) returns (k: nat)
    requires line in AllLines(segments)
    ensures k < |segments| && line in segments[k].lines
  {
    if line in segments[0].lines {
      k := 0;
    } else {
      k := LineHolder(segments[1..], line);
      k := k + 1;
    }
  }

  lemma {:induction false} NonBlankMembers(lines: seq<Line>, line: Line)
    ensures line in NonBlank(lines) <==> line in lines && line.kind != Blank
  {
    if lines != [] {
      NonBlankMembers(lines[1..], line);
      assert lines == [lines[0]] + lines[1..];
    }
  }

  /** Table rows make tables, list items lists, headings headings, and plain lines paragraphs. */
  predicate MadeFor(block: BlockKind, line: LineKind) {
    && (block.Table? <==> line.TableRow?) && (block.List? <==> line.ListItem?) && (block.Heading? <==> line.HeadingLine?)
  }

  /** Each line that is not blank stands in the text of some block of its kind. */
  lemma LineInBlock(lines: seq<Line>, line: Line) returns (k: nat)
    requires AllClassified(lines) && line in lines && line.kind != Blank
    ensures var blocks := RenderAll(Segments(lines, []));
            k < |blocks| && MadeFor(blocks[k].kind, line.kind) && Contains(blocks[k].text, Strip(line.raw))
  {
    hide Segments, Inked, Join, Strip, Contains, AllLines, NonBlank;
    var segments := Segments(lines, []);
    BlocksKeepLines(lines, []);
    NonBlankMembers(lines, line);
    k := LineHolder(segments, line);
    SegmentsWellMade(lines, []);
    var s := segments[k];
    var i :| 0 <= i < |s.lines| && s.lines[i] == line;
    assert BelongsIn(s.lines[i], s.kind);
    var parts := TextIsLines(s);
    JoinContains("\n", parts, i);
    ContainsStripped(parts[i]);
    assert Strip(parts[i]) == Strip(line.raw);
    ContainsTrans(Render(s).text, parts[i], Strip(line.raw));
  }

  // ------------------------------------------------------------------ maximal runs

  /** lines[i..j] are body lines of one kind, and no neighbour continues them. */
  ghost predicate MaximalRun(lines: seq<Line>, i: nat, j: nat) {
    && i < j <= |lines|
    && IsBody(lines[i])
    && (forall k :: i <= k < j ==> SameKind(lines[k], lines[i]))
    && (i > 0 ==> !SameKind(lines[i - 1], lines[i]))
    && (j < |lines| ==> !SameKind(lines[j], lines[i]))
  }

  predicate SameKind(a: Line, b: Line) {
    a.kind == b.kind && (a.kind.TableRow? || a.kind.ListItem? || a.kind.Plain?)
  }

  /** Segment k holds exactly lines[i..j], and the segments before it hold exactly the non-blank lines
      before i; its trail is the one left by the headings before i. */
  ghost predicate HoldsRun(lines: seq<Line>, path: seq<string>, i: nat, j: nat, k: nat)
    requires i < j <= |lines|
  {
    var segments := Segments(lines, path);
    && k < |segments|
    && segments[k] == Segment(KindOf(lines[i]), lines[i..j], PathFrom(path, Headings(lines[..i])))
    && AllLines(segments[..k]) == NonBlank(lines[..i])
  }

  lemma {:induction false} HeadingsConcat(a: seq<Line>, b: seq<Line>)
    ensures Headings(a + b) == Headings(a) + Headings(b)
  {
    if b == [] {
      assert a + b == a;
    } else {
      var k := |b| - 1;
      HeadingsConcat(a, b[..k]);
      assert (a + b)[..|a + b| - 1] == a + b[..k];
    }
  }

  lemma {:induction false} PathFromConcat(path: seq<string>, a: seq<HeadingMark>, b: seq<HeadingMark>)
    ensures PathFrom(path, a + b) == PathFrom(PathFrom(path, a), b)
  {
    hide PathAfter;
    if b == [] {
      assert a + b == a;
    } else {
      var k := |b| - 1;
      PathFromConcat(path, a, b[..k]);
      assert (a + b)[..|a + b| - 1] == a + b[..k];
    }
  }

  lemma {:induction false} NoHeadings(lines: seq<Line>)
    requires forall i :: 0 <= i < |lines| ==> !lines[i].kind.HeadingLine?
    ensures Headings(lines) == []
  {
    if lines != [] {
      NoHeadings(lines[..|lines| - 1]);
    }
  }

  /** Going past the first n lines adds what those lines hold to everything before a later line. */
  lemma ShiftPrefix(lines: seq<Line>, path: seq<string>, n: nat, i: nat)
    requires n <= i <= |lines|
    ensures var front, back := lines[..n], lines[n..][..i - n];
            && NonBlank(lines[..i]) == NonBlank(front) + NonBlank(back)
            && PathFrom(path, Headings(lines[..i])) == PathFrom(PathFrom(path, Headings(front)), Headings(back))
  {
    hide PathAfter;
    var front, back := lines[..n], lines[n..][..i - n];
    assert lines[..i] == front + back;
    HeadingsConcat(front, back);
    PathFromConcat(path, Headings(front), Headings(back));
    NonBlankConcat(front, back);
  }

  lemma AllLinesShift(first: seq<Segment>, rest: seq<Segment>)
    requires |first| <= 1
    ensures AllLines(first + rest) == AllLines(first) + AllLines(rest)
  {
    if first == [] {
      assert first + rest == rest;
      assert AllLines(first) == [] && [] + AllLines(rest) == AllLines(rest);
    } else {
      assert first == [first[0]];
      HeadSegment(first[0], rest);
      HeadSegment(first[0], []);
      assert [first[0]] + [] == first && AllLines([]) == [];
      assert AllLines(first) == first[0].lines + [] == first[0].lines;
    }
  }

  /** Going past the first n lines, which made `first`, shifts a run and its segment. */
  lemma ShiftRun(lines: seq<Line>, path: seq<string>, n: nat, p: seq<string>, first: seq<Segment>, i: nat, j: nat, k: nat)
    requires n <= i < j <= |lines|
    requires Segments(lines, path) == first + Segments(lines[n..], p)
    requires AllLines(first) == NonBlank(lines[..n]) && p == PathFrom(path, Headings(lines[..n]))
    requires |first| <= 1
    requires HoldsRun(lines[n..], p, i - n, j - n, k)
    ensures HoldsRun(lines, path, i, j, |first| + k)
  {
    hide Segments, KindOf, PathFrom, NonBlank, Headings, AllLines;
    var rest := Segments(lines[n..], p);
    assert lines[n..][i - n..j - n] == lines[i..j];
    ShiftPrefix(lines, path, n, i);
    AllLinesShift(first, rest[..k]);
    var segments := Segments(lines, path);
    assert segments[..|first| + k] == first + rest[..k];
    assert segments[|first| + k] == rest[k];
  }

  /** One step of the reference parse: how many lines it takes, what it makes of them, the trail after. */
  ghost predicate FirstStep(lines: seq<Line>, path: seq<string>, n: nat, p: seq<string>, first: seq<Segment>)
    requires lines != []
  {
    && 0 < n <= |lines| && |first| <= 1
    && Segments(lines, path) == first + Segments(lines[n..], p)
    && AllLines(first) == NonBlank(lines[..n])
    && p == PathFrom(path, Headings(lines[..n]))
  }

  lemma OneLine(line: Line, path: seq<string>)
    ensures NonBlank([line]) == if line.kind == Blank then [] else [line]
    ensures Headings([line]) == if line.kind.HeadingLine? then [HeadingMark(line.kind.level, line.kind.title)] else []
    ensures PathFrom(path, []) == path
    ensures line.kind.HeadingLine? ==> PathFrom(path, Headings([line])) == PathAfter(path, line.kind.level, line.kind.title)
  {
    hide PathAfter;
    assert [line][1..] == [] && [line][..0] == [];
    if line.kind.HeadingLine? {
      var h := HeadingMark(line.kind.level, line.kind.title);
      assert [h][..0] == [];
    }
  }

  lemma TakeStep(lines: seq<Line>, path: seq<string>) returns (n: nat, p: seq<string>, first: seq<Segment>)
    requires lines != []
    ensures FirstStep(lines, path, n, p, first)
    ensures IsBody(lines[0]) ==> n == RunLength(lines) && p == path && first == [Segment(KindOf(lines[0]), lines[..n], path)]
    ensures !IsBody(lines[0]) ==> n == 1
    ensures first != [] && first[0].kind != Heading ==> IsBody(lines[0])
  {
    hide PathAfter;
    OneLine(lines[0], path);
    match lines[0].kind
    case Blank =>
      n, p, first := 1, path, [];
      assert lines[..1] == [lines[0]];
      assert first + Segments(lines[1..], p) == Segments(lines[1..], p);
    case HeadingLine(level, title) =>
      n, p := 1, PathAfter(path, level, title);
      first := [Segment(Heading, [lines[0]], p)];
      assert lines[..1] == [lines[0]];
      HeadSegment(first[0], []);
      assert [first[0]] + [] == first && first[0].lines + [] == first[0].lines;
    case _ =>
      n, p := RunLength(lines), path;
      first := [Segment(KindOf(lines[0]), lines[..n], path)];
      NonBlankBody(lines[..n]);
      NoHeadings(lines[..n]);
      HeadSegment(first[0], []);
      assert [first[0]] + [] == first && first[0].lines + [] == first[0].lines;
  }

  lemma ShiftMaximal(lines: seq<Line>, n: nat, i: nat, j: nat)
    requires n <= i && MaximalRun(lines, i, j)
    ensures MaximalRun(lines[n..], i - n, j - n)
  {
    hide KindOf, IsBody;
    var rest := lines[n..];
    assert rest[i - n] == lines[i];
    forall k | i - n <= k < j - n
      ensures SameKind(rest[k], rest[i - n])
    {
      assert SameKind(lines[k + n], lines[i]);
    }
  }

  lemma RunStartsRun(lines: seq<Line>, i: nat, j: nat)
    requires lines != [] && IsBody(lines[0]) && MaximalRun(lines, i, j)
    ensures i < RunLength(lines) ==> i == 0 && j == RunLength(lines)
  {
    var n := RunLength(lines);
    assert forall a, b :: 0 <= a < n && 0 <= b < n ==> SameKind(lines[a], lines[b]);
    assert n < |lines| ==> !SameKind(lines[n], lines[0]);
  }

  /** The first step of the parse, when it takes a run, is the first segment. */
  lemma FirstRunHeld(lines: seq<Line>, path: seq<string>, n: nat, p: seq<string>, first: seq<Segment>)
    requires lines != [] && FirstStep(lines, path, n, p, first)
    requires first == [Segment(KindOf(lines[0]), lines[..n], path)]
    ensures HoldsRun(lines, path, 0, n, 0)
  {
    hide Segments, KindOf, PathAfter;
    assert Segments(lines, path)[0] == first[0];
    assert lines[0..n] == lines[..n] && lines[..0] == [];
    assert Segments(lines, path)[..0] == [];
  }

  /** Each maximal run of table rows (or list items, or plain lines) is exactly one block: no run is
      split, merged with a neighbour, or moved. */
  lemma {:induction false} RunIsOneBlock(lines: seq<Line>, path: seq<string>, i: nat, j: nat) returns (k: nat)
    requires MaximalRun(lines, i, j)
    ensures HoldsRun(lines, path, i, j, k)
    decreases |lines|
  {
    hide Segments, RunLength, KindOf, PathAfter, PathFrom, NonBlank, Headings, AllLines, HoldsRun, SameKind;
    var n, p, first := TakeStep(lines, path);
    if IsBody(lines[0]) {
      RunStartsRun(lines, i, j);
    }
    if i < n {
      k := 0;
      FirstRunHeld(lines, path, n, p, first);
    } else {
      ShiftMaximal(lines, n, i, j);
      var m := RunIsOneBlock(lines[n..], p, i - n, j - n);
      ShiftRun(lines, path, n, p, first, i, j, m);
      k := |first| + m;
    }
  }

  lemma RunIsMaximal(lines: seq<Line>)
    requires lines != [] && IsBody(lines[0])
    ensures MaximalRun(lines, 0, RunLength(lines))
  {
  }

  lemma MaximalShifts(lines: seq<Line>, n: nat, i: nat, j: nat)
    requires 0 < n <= |lines| && MaximalRun(lines[n..], i, j)
    requires i > 0 || !SameKind(lines[n - 1], lines[n])
    ensures MaximalRun(lines, n + i, n + j)
  {
    hide KindOf, IsBody;
    var rest := lines[n..];
    forall k | n + i <= k < n + j
      ensures SameKind(lines[k], lines[n + i])
    {
      assert SameKind(rest[k - n], rest[i]);
    }
    if i > 0 {
      assert rest[i - 1] == lines[n + i - 1];
    }
  }

  lemma MaximalBounds(lines: seq<Line>, i: nat, j: nat)
    requires MaximalRun(lines, i, j)
    ensures i < j <= |lines|
  {
  }

  lemma StepEndsKind(lines: seq<Line>, path: seq<string>, n: nat)
    requires lines != [] && n < |lines|
    requires IsBody(lines[0]) ==> n == RunLength(lines)
    requires !IsBody(lines[0]) ==> n == 1
    ensures n > 0 && !SameKind(lines[n - 1], lines[n])
  {
  }

  /** Conversely, every block that is not a heading is a maximal run of its kind. */
  lemma {:induction false} BlockIsOneRun(lines: seq<Line>, path: seq<string>, k: nat) returns (i: nat, j: nat)
    requires k < |Segments(lines, path)| && Segments(lines, path)[k].kind != Heading
    ensures MaximalRun(lines, i, j) && HoldsRun(lines, path, i, j, k)
    decreases |lines|
  {
    hide Segments, RunLength, KindOf, PathAfter, PathFrom, NonBlank, Headings, AllLines, HoldsRun, SameKind, MaximalRun;
    if lines == [] {
      EmptySegments(path);
    }
    var n, p, first := TakeStep(lines, path);
    if k < |first| {
      RunIsMaximal(lines);
      i, j := 0, n;
      FirstRunHeld(lines, path, n, p, first);
    } else {
      assert Segments(lines, path)[k] == Segments(lines[n..], p)[k - |first|];
      if n == |lines| {
        EmptySegments(p);
      }
      var a, b := BlockIsOneRun(lines[n..], p, k - |first|);
      StepEndsKind(lines, path, n);
      MaximalBounds(lines[n..], a, b);
      MaximalShifts(lines, n, a, b);
      i, j := n + a, n + b;
      ShiftRun(lines, path, n, p, first, i, j, k - |first|);
    }
  }

  lemma EmptySegments(path: seq<string>)
    ensures Segments([], path) == []
  {
  }
}
