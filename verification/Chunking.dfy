/** From a document's blocks to indexable passages (assistant/chunking.py). */
module Chunking {
  import opened Blocks
  import opened Packing
  import opened Registry
  import opened Sequences
  import opened Sorting
  import opened Strings
  import opened Wrappers

  datatype Chunk = Chunk(
    chunkId: string, docId: string, version: string, citationKey: string, text: string, tokenCount: nat,
    headingPath: seq<string>, ordinal: nat, kind: DocumentKind, owner: string, effectiveFrom: Option<Date>,
    effectiveTo: Option<Date>, language: string, productTags: seq<string>, docContentHash: string,
    containsTable: bool, oversize: bool, undersize: bool)
  {
    /** The document's window test, answered from the copied dates. */
    predicate IsEffectiveOn(asOf: Date) {
      if effectiveFrom.None? then false
      else if asOf < effectiveFrom.value then false
      else if effectiveTo.Some? && asOf > effectiveTo.value then false
      else true
    }
  }

  datatype ChunkingError = InvalidBudget | NoContent | NothingProduced

  /** What the chunker is given: the line patterns, the sentence pattern, the token counter and the hashes. */
  datatype Tools = Tools(
    parse: string -> seq<Line>, sentences: string -> seq<string>, counter: string -> nat,
    hash: Fingerprint -> string, digest: string -> string)
  {
    ghost predicate Sound() {
      forall text :: AllClassified(parse(text))
    }

    /** Counting tokens adds up over the joins the chunker makes, and ignores outer whitespace. */
    ghost predicate Additive() {
      && (forall parts :: counter(Join(" ", parts)) == Total(counter, parts))
      && (forall parts :: counter(Join("\n\n", parts)) == Total(counter, parts))
      && (forall text :: counter(Strip(text)) == counter(text))
    }
  }

  function Total(counter: string -> nat, parts: seq<string>): nat {
    if parts == [] then 0 else Total(counter, parts[..|parts| - 1]) + counter(parts[|parts| - 1])
  }

  // ----------------------------------------------------------- over-long paragraphs

  predicate Inks(text: string) {
    Strip(text) != ""
  }

  function Sentences(text: string, tools: Tools): (r: seq<string>)
    ensures r != []
  {
    var kept := Filter(tools.sentences(text), Inks);
    if kept == [] then [text] else kept
  }

  function SentencePacker(budget: int, tools: Tools): Packer<string> {
    Packer(tools.counter, budget, (sentence: string, packed: nat) => false)
  }

  function JoinStripped(group: seq<string>): string {
    Join(" ", Map(group, Strip))
  }

  function Pieces(text: string, budget: int, tools: Tools): seq<string> {
    Map(Groups(SentencePacker(budget, tools), Sentences(text, tools)), JoinStripped)
  }

  lemma FilterNone(s: seq<string>)
    requires |s| == 0
    ensures Filter(s, Inks) == []
  {
  }

  /** The split sentences that are not blank, or the whole text. */
  method KeepSentences(text: string, tools: Tools) returns (sentences: seq<string>)
    ensures sentences == Sentences(text, tools)
  {
    hide Strip, Filter;
    var split := tools.sentences(text);
    sentences := [];
    FilterNone(split[..0]);
    for i := 0 to |split|
      invariant sentences == Filter(split[..i], Inks)
    {
      FilterAppend(split[..i], split[i], Inks);
      assert split[..i + 1] == split[..i] + [split[i]];
      if Strip(split[i]) != "" {
        sentences := sentences + [split[i]];
      }
    }
    assert split[..|split|] == split;
    if sentences == [] {
      sentences := [text];
    }
  }

  /** `_split_paragraph`: sentences packed up to the budget, a longer one whole. */
  method SplitParagraph(text: string, budget: int, tools: Tools) returns (out: seq<string>)
    ensures out == Pieces(text, budget, tools)
  {
    hide JoinStripped, Groups, Sentences, SentencePacker;
    var sentences := KeepSentences(text, tools);
    var groups := Pack(SentencePacker(budget, tools), sentences);
    out := [];
    for i := 0 to |groups|
      invariant out == Map(groups[..i], JoinStripped)
    {
      out := out + [JoinStripped(groups[i])];
    }
    assert groups[..|groups|] == groups;
  }

  // ------------------------------------------------------------------------- units

  function PieceBlocks(block: Block, pieces: seq<string>): (r: seq<Block>)
    ensures |r| == |pieces|
    ensures forall i :: 0 <= i < |r| ==> r[i] == Block(block.kind, pieces[i], block.path)
  {
    seq(|pieces|, i requires 0 <= i < |pieces| => Block(block.kind, pieces[i], block.path))
  }

  /** A table, or a block within the budget, stays whole; anything else becomes its pieces. */
  function UnitsOf(block: Block, budget: int, tools: Tools): seq<Block> {
    if block.kind == Table || tools.counter(block.text) <= budget then [block]
    else PieceBlocks(block, Pieces(block.text, budget, tools))
  }

  function Units(blocks: seq<Block>, budget: int, tools: Tools): seq<Block> {
    if blocks == [] then []
    else Units(blocks[..|blocks| - 1], budget, tools) + UnitsOf(blocks[|blocks| - 1], budget, tools)
  }

  lemma UnitsStep(blocks: seq<Block>, i: nat, budget: int, tools: Tools)
    requires i < |blocks|
    ensures Units(blocks[..i + 1], budget, tools) == Units(blocks[..i], budget, tools) + UnitsOf(blocks[i], budget, tools)
  {
    hide UnitsOf;
    assert blocks[..i + 1][..i] == blocks[..i];
  }

  method Expand(blocks: seq<Block>, budget: int, tools: Tools) returns (units: seq<Block>)
    ensures units == Units(blocks, budget, tools)
  {
    hide Pieces, Units;
    units := [];
    NoUnits(blocks[..0], budget, tools);
    for i := 0 to |blocks|
      invariant units == Units(blocks[..i], budget, tools)
    {
      UnitsStep(blocks, i, budget, tools);
      var block := blocks[i];
      if block.kind == Table || tools.counter(block.text) <= budget {
        units := units + [block];
      } else {
        var pieces := SplitParagraph(block.text, budget, tools);
        units := units + PieceBlocks(block, pieces);
      }
    }
    assert blocks[..|blocks|] == blocks;
  }

  lemma NoUnits(blocks: seq<Block>, budget: int, tools: Tools)
    requires |blocks| == 0
    ensures Units(blocks, budget, tools) == []
  {
  }

  // ------------------------------------------------------------------------ chunks

  function UnitPacker(minTokens: int, maxTokens: int, tools: Tools): Packer<Block> {
    Packer((unit: Block) => tools.counter(unit.text), maxTokens,
           (unit: Block, packed: nat) => unit.kind == Heading && packed >= minTokens)
  }

  predicate AllHeadings(group: seq<Block>) {
    forall i :: 0 <= i < |group| ==> group[i].kind == Heading
  }

  predicate HasTable(group: seq<Block>) {
    exists i :: 0 <= i < |group| && group[i].kind == Table
  }

  function Texts(group: seq<Block>): (r: seq<string>)
    ensures |r| == |group|
    ensures forall i :: 0 <= i < |group| ==> r[i] == group[i].text
  {
    seq(|group|, i requires 0 <= i < |group| => group[i].text)
  }

  /** The trail of the last unit that has one. */
  function TrailOf(group: seq<Block>): seq<string> {
    if group == [] then []
    else if group[|group| - 1].path != [] then group[|group| - 1].path
    else TrailOf(group[..|group| - 1])
  }

  function ChunkId(document: Document, ordinal: nat, body: string, tools: Tools): string {
    document.CitationKey() + "#" + Pad3(ordinal) + "-" + tools.digest(body)
  }

  /** A group of units and its place among the groups. */
  datatype Numbered = Numbered(ordinal: nat, group: seq<Block>)

  /** How a document is cut: its budget and how many groups it made. */
  datatype Cut = Cut(minTokens: int, maxTokens: int, groups: nat)

  function ChunkOf(document: Document, n: Numbered, cut: Cut, tools: Tools): Chunk {
    var body := Strip(Join("\n\n", Texts(n.group)));
    var tokens := tools.counter(body);
    Chunk(ChunkId(document, n.ordinal, body, tools), document.docId, document.version, document.CitationKey(), body, tokens,
          TrailOf(n.group), n.ordinal, document.kind, document.owner, Some(document.effectiveFrom), document.effectiveTo,
          document.language, document.productTags, tools.hash(document.Content()), HasTable(n.group),
          tokens > cut.maxTokens, tokens < cut.minTokens && cut.groups == 1)
  }

  /** The groups that become chunks: those with something besides headings. */
  function Kept(groups: seq<seq<Block>>): seq<Numbered> {
    if groups == [] then []
    else
      var n := |groups| - 1;
      Kept(groups[..n]) + (if AllHeadings(groups[n]) then [] else [Numbered(n, groups[n])])
  }

  function ChunksOf(document: Document, kept: seq<Numbered>, cut: Cut, tools: Tools): (r: seq<Chunk>)
    ensures |r| == |kept|
    ensures forall i :: 0 <= i < |kept| ==> r[i] == ChunkOf(document, kept[i], cut, tools)
  {
    seq(|kept|, i requires 0 <= i < |kept| => ChunkOf(document, kept[i], cut, tools))
  }

  function BlocksOf(document: Document, tools: Tools): seq<Block> {
    RenderAll(Segments(tools.parse(document.text), []))
  }

  function GroupsOf(document: Document, minTokens: int, maxTokens: int, tools: Tools): seq<seq<Block>> {
    Groups(UnitPacker(minTokens, maxTokens, tools), Units(BlocksOf(document, tools), maxTokens, tools))
  }

  /** What chunking a document gives. */
  function Chunked(document: Document, minTokens: int, maxTokens: int, tools: Tools): Result<seq<Chunk>, ChunkingError> {
    if minTokens <= 0 || maxTokens < minTokens then Err(InvalidBudget)
    else if BlocksOf(document, tools) == [] then Err(NoContent)
    else
      var groups := GroupsOf(document, minTokens, maxTokens, tools);
      var kept := Kept(groups);
      if kept == [] then Err(NothingProduced)
      else Ok(ChunksOf(document, kept, Cut(minTokens, maxTokens, |groups|), tools))
  }

  // ------------------------------------------------------- what units look like

  ghost predicate AllTrimmedTexts(units: seq<Block>) {
    forall i :: 0 <= i < |units| ==> Trimmed(units[i].text)
  }

  lemma InksIsInked(text: string)
    ensures Inks(text) <==> Inked(text)
  {
    StripsToNothing(text);
  }

  lemma SentencesInk(text: string, tools: Tools)
    requires Trimmed(text)
    ensures forall i :: 0 <= i < |Sentences(text, tools)| ==> Inks(Sentences(text, tools)[i])
  {
    hide Strip;
    var split := tools.sentences(text);
    var kept := Filter(split, Inks);
    forall i | 0 <= i < |kept|
      ensures Inks(kept[i])
    {
      FilterMembers(split, Inks, kept[i]);
    }
    TrimmedStrip(text);
  }

  lemma StrippedTrimmed(group: seq<string>)
    requires group != [] && forall i :: 0 <= i < |group| ==> Inks(group[i])
    ensures Trimmed(JoinStripped(group))
  {
    hide Strip, Trimmed, Inks;
    var parts := Map(group, Strip);
    forall i | 0 <= i < |parts|
      ensures Trimmed(parts[i])
    {
      InksIsInked(group[i]);
      StripTrims(group[i]);
    }
    JoinTrimmed(" ", parts);
  }

  /** A group's items are items of the packed list. */
  lemma PackedMembers<T>(p: Packer<T>, items: seq<T>, g: nat)
    requires g < |Groups(p, items)|
    ensures Fits(p, Groups(p, items)[g]) && Groups(p, items)[g] != []
    ensures forall i :: 0 <= i < |Groups(p, items)[g]| ==> Groups(p, items)[g][i] in items
  {
    hide Groups;
    var groups := Groups(p, items);
    GroupsArePacking(p, items);
    forall i | 0 <= i < |groups[g]|
      ensures groups[g][i] in items
    {
      GroupItemInFlat(groups, g, groups[g][i]);
    }
  }

  lemma PiecesTrimmed(text: string, budget: int, tools: Tools)
    requires Trimmed(text)
    ensures forall i :: 0 <= i < |Pieces(text, budget, tools)| ==> Trimmed(Pieces(text, budget, tools)[i])
  {
    hide Trimmed, Inks, JoinStripped, Groups, Sentences;
    var p, sentences := SentencePacker(budget, tools), Sentences(text, tools);
    SentencesInk(text, tools);
    forall i | 0 <= i < |Pieces(text, budget, tools)|
      ensures Trimmed(Pieces(text, budget, tools)[i])
    {
      PackedMembers(p, sentences, i);
      StrippedTrimmed(Groups(p, sentences)[i]);
    }
  }

  lemma {:induction false} UnitsTrimmed(blocks: seq<Block>, budget: int, tools: Tools)
    requires AllTrimmedTexts(blocks)
    ensures AllTrimmedTexts(Units(blocks, budget, tools))
  {
    hide Trimmed, Pieces;
    if blocks != [] {
      var n := |blocks| - 1;
      UnitsTrimmed(blocks[..n], budget, tools);
      PiecesTrimmed(blocks[n].text, budget, tools);
    }
  }

  /** Every block the parser makes has trimmed, non-empty text. */
  lemma {:induction false} SegmentsTrimmed(lines: seq<Line>, path: seq<string>)
    requires AllClassified(lines)
    ensures forall k :: 0 <= k < |Segments(lines, path)| ==> Trimmed(Render(Segments(lines, path)[k]).text)
    decreases |lines|
  {
    hide RunLength, KindOf, PathAfter, Render, Trimmed;
    if lines != [] {
      FirstTrimmed(lines);
      match lines[0].kind
      case Blank => SegmentsTrimmed(lines[1..], path);
      case HeadingLine(level, title) => SegmentsTrimmed(lines[1..], PathAfter(path, level, title));
      case _ => SegmentsTrimmed(lines[RunLength(lines)..], path);
    }
  }

  lemma FirstTrimmed(lines: seq<Line>)
    requires lines != [] && AllClassified(lines)
    ensures forall p :: IsBody(lines[0]) ==> Trimmed(Render(Segment(KindOf(lines[0]), lines[..RunLength(lines)], p)).text)
    ensures forall p :: lines[0].kind.HeadingLine? ==> Trimmed(Render(Segment(Heading, [lines[0]], p)).text)
  {
    assert Classified(lines[0]);
    if IsBody(lines[0]) {
      BufferInked(lines[..RunLength(lines)], KindOf(lines[0]));
    }
    if lines[0].kind.HeadingLine? {
      StripTrims(lines[0].raw);
      forall p
        ensures Trimmed(Render(Segment(Heading, [lines[0]], p)).text)
      {
        RenderHeading(lines[0], p);
      }
    }
  }

  lemma BlocksTrimmed(document: Document, tools: Tools)
    requires tools.Sound()
    ensures AllTrimmedTexts(BlocksOf(document, tools))
  {
    hide Segments, Render, Trimmed, AllClassified;
    SegmentsTrimmed(tools.parse(document.text), []);
  }

  lemma TextsTrimmed(group: seq<Block>)
    requires group != [] && AllTrimmedTexts(group)
    ensures Trimmed(Join("\n\n", Texts(group))) && Strip(Join("\n\n", Texts(group))) == Join("\n\n", Texts(group))
  {
    hide Trimmed, Strip;
    JoinTrimmed("\n\n", Texts(group));
    TrimmedStrip(Join("\n\n", Texts(group)));
  }

  /** A group's text is not empty and stripping it changes nothing, so only headings are ever dropped. */
  lemma GroupText(document: Document, minTokens: int, maxTokens: int, tools: Tools, g: nat)
    requires tools.Sound() && g < |GroupsOf(document, minTokens, maxTokens, tools)|
    ensures var group := GroupsOf(document, minTokens, maxTokens, tools)[g];
            group != [] && Join("\n\n", Texts(group)) != "" && Strip(Join("\n\n", Texts(group))) == Join("\n\n", Texts(group))
  {
    hide Trimmed, Strip, Join, BlocksOf, Units, Groups, UnitPacker, Tools.Sound;
    BlocksTrimmed(document, tools);
    UnitsTrimmed(BlocksOf(document, tools), maxTokens, tools);
    var units := Units(BlocksOf(document, tools), maxTokens, tools);
    PackedMembers(UnitPacker(minTokens, maxTokens, tools), units, g);
    var group := GroupsOf(document, minTokens, maxTokens, tools)[g];
    MembersTrimmed(group, units);
    TextsTrimmed(group);
    TrimmedHasText(Join("\n\n", Texts(group)));
  }

  lemma MembersTrimmed(group: seq<Block>, units: seq<Block>)
    requires AllTrimmedTexts(units) && forall i :: 0 <= i < |group| ==> group[i] in units
    ensures AllTrimmedTexts(group)
  {
    hide Trimmed;
    forall i | 0 <= i < |group|
      ensures Trimmed(group[i].text)
    {
      var j :| 0 <= j < |units| && units[j] == group[i];
    }
  }

  lemma TrimmedHasText(text: string)
    requires Trimmed(text)
    ensures text != ""
  {
  }

  lemma KeptStep(groups: seq<seq<Block>>, i: nat)
    requires i < |groups|
    ensures Kept(groups[..i + 1]) == Kept(groups[..i]) + (if AllHeadings(groups[i]) then [] else [Numbered(i, groups[i])])
  {
    hide AllHeadings;
    assert groups[..i + 1][..i] == groups[..i];
  }

  lemma NoneKept(groups: seq<seq<Block>>)
    requires |groups| == 0
    ensures Kept(groups) == []
  {
  }

  /** `chunk_document`. */
  method ChunkDocument(document: Document, minTokens: int, maxTokens: int, tools: Tools)
    returns (r: Result<seq<Chunk>, ChunkingError>)
    requires tools.Sound()
    ensures r == Chunked(document, minTokens, maxTokens, tools)
  {
    hide Groups, Units, UnitPacker, Segments, RenderAll, AllHeadings, ChunkOf, Kept, Strip, Join;
    if minTokens <= 0 || maxTokens < minTokens {
      return Err(InvalidBudget);
    }
    var blocks := ParseBlocks(tools.parse(document.text));
    if blocks == [] {
      return Err(NoContent);
    }
    var units := Expand(blocks, maxTokens, tools);
    var groups := Pack(UnitPacker(minTokens, maxTokens, tools), units);
    var cut := Cut(minTokens, maxTokens, |groups|);
    var chunks: seq<Chunk> := [];
    NoneKept(groups[..0]);
    for ordinal := 0 to |groups|
      invariant chunks == ChunksOf(document, Kept(groups[..ordinal]), cut, tools)
    {
      var group := groups[ordinal];
      KeptStep(groups, ordinal);
      GroupText(document, minTokens, maxTokens, tools, ordinal);
      var body := Strip(Join("\n\n", Texts(group)));
      if body != "" && !AllHeadings(group) {
        chunks := chunks + [ChunkOf(document, Numbered(ordinal, group), cut, tools)];
      }
    }
    assert groups[..|groups|] == groups;
    if chunks == [] {
      return Err(NothingProduced);
    }
    r := Ok(chunks);
  }

  // ---------------------------------------------------------- when chunking succeeds

  lemma {:induction false} KeptNothing(groups: seq<seq<Block>>)
    ensures Kept(groups) == [] <==> AllHeadings(Flatten(groups))
  {
    if groups != [] {
      var n := |groups| - 1;
      KeptNothing(groups[..n]);
      hide Kept;
      assert Flatten(groups) == Flatten(groups[..n]) + groups[n];
      HeadingsConcatenated(Flatten(groups[..n]), groups[n]);
      KeptStep(groups, n);
      assert groups[..n + 1] == groups;
    }
  }

  lemma HeadingsConcatenated(a: seq<Block>, b: seq<Block>)
    ensures AllHeadings(a + b) <==> AllHeadings(a) && AllHeadings(b)
  {
    assert forall i :: 0 <= i < |b| ==> (a + b)[|a| + i] == b[i];
    assert forall i :: 0 <= i < |a| ==> (a + b)[i] == a[i];
  }

  lemma UnitsOfKind(block: Block, budget: int, tools: Tools)
    ensures UnitsOf(block, budget, tools) != []
    ensures forall i :: 0 <= i < |UnitsOf(block, budget, tools)| ==> UnitsOf(block, budget, tools)[i].kind == block.kind
  {
    hide Groups, Sentences;
    var p, sentences := SentencePacker(budget, tools), Sentences(block.text, tools);
    GroupsArePacking(p, sentences);
    assert Flatten(Groups(p, sentences)) == sentences;
    assert Groups(p, sentences) != [];
  }

  lemma OneKindHeadings(units: seq<Block>, kind: BlockKind)
    requires units != [] && forall i :: 0 <= i < |units| ==> units[i].kind == kind
    ensures AllHeadings(units) <==> kind == Heading
  {
    assert units[0].kind == kind;
  }

  lemma {:induction false} UnitsHeadings(blocks: seq<Block>, budget: int, tools: Tools)
    ensures AllHeadings(Units(blocks, budget, tools)) <==> AllHeadings(blocks)
  {
    hide UnitsOf;
    if blocks != [] {
      var n := |blocks| - 1;
      UnitsHeadings(blocks[..n], budget, tools);
      HeadingsConcatenated(Units(blocks[..n], budget, tools), UnitsOf(blocks[n], budget, tools));
      assert blocks == blocks[..n] + [blocks[n]];
      HeadingsConcatenated(blocks[..n], [blocks[n]]);
      UnitsOfKind(blocks[n], budget, tools);
      OneKindHeadings(UnitsOf(blocks[n], budget, tools), blocks[n].kind);
      OneKindHeadings([blocks[n]], blocks[n].kind);
    }
  }

  /** A line that is neither blank nor a heading. */
  ghost predicate HasBodyLine(lines: seq<Line>) {
    exists i :: 0 <= i < |lines| && IsBody(lines[i])
  }

  ghost predicate HasBodySegment(segments: seq<Segment>) {
    exists k :: 0 <= k < |segments| && segments[k].kind != Heading
  }

  lemma HeadedSegments(first: Segment, rest: seq<Segment>)
    ensures HasBodySegment([first] + rest) <==> first.kind != Heading || HasBodySegment(rest)
  {
    var all := [first] + rest;
    if first.kind != Heading {
      assert all[0].kind != Heading;
    }
    if HasBodySegment(rest) {
      var k :| 0 <= k < |rest| && rest[k].kind != Heading;
      assert all[k + 1] == rest[k];
    }
  }

  lemma HeadedLines(lines: seq<Line>, n: nat)
    requires n <= |lines|
    ensures HasBodyLine(lines) <==> HasBodyLine(lines[..n]) || HasBodyLine(lines[n..])
  {
    hide IsBody;
    if HasBodyLine(lines) {
      var i :| 0 <= i < |lines| && IsBody(lines[i]);
      if i < n {
        assert lines[..n][i] == lines[i];
      } else {
        assert lines[n..][i - n] == lines[i];
      }
    }
    if HasBodyLine(lines[n..]) {
      var i :| 0 <= i < |lines[n..]| && IsBody(lines[n..][i]);
      assert lines[n + i] == lines[n..][i];
    }
  }

  lemma OneBodyLine(line: Line)
    ensures HasBodyLine([line]) <==> IsBody(line)
  {
    if IsBody(line) {
      assert [line][0] == line;
    }
  }

  lemma FirstIsBody(lines: seq<Line>)
    requires lines != [] && IsBody(lines[0])
    ensures HasBodyLine(lines) && KindOf(lines[0]) != Heading
  {
  }

  lemma {:induction false} BodySegments(lines: seq<Line>, path: seq<string>)
    ensures HasBodySegment(Segments(lines, path)) <==> HasBodyLine(lines)
    decreases |lines|
  {
    hide RunLength, KindOf, PathAfter, HasBodySegment, HasBodyLine;
    if lines == [] {
      NoBody();
    } else {
      HeadedLines(lines, 1);
      OneBodyLine(lines[0]);
      assert lines[..1] == [lines[0]];
      match lines[0].kind
      case Blank => BodySegments(lines[1..], path);
      case HeadingLine(level, title) =>
        var p := PathAfter(path, level, title);
        BodySegments(lines[1..], p);
        HeadedSegments(Segment(Heading, [lines[0]], p), Segments(lines[1..], p));
      case _ =>
        FirstIsBody(lines);
        var n := RunLength(lines);
        HeadedSegments(Segment(KindOf(lines[0]), lines[..n], path), Segments(lines[n..], path));
    }
  }

  lemma NoBody()
    ensures !HasBodySegment([]) && !HasBodyLine([])
  {
  }

  lemma RenderedHeadings(segments: seq<Segment>)
    ensures AllHeadings(RenderAll(segments)) <==> !HasBodySegment(segments)
  {
  }

  /** Chunking succeeds exactly for a sensible budget and a document with a body line: one that is
      neither blank nor a heading. */
  lemma ChunkingSucceeds(document: Document, minTokens: int, maxTokens: int, tools: Tools)
    ensures Chunked(document, minTokens, maxTokens, tools).Ok? <==> 0 < minTokens <= maxTokens && HasBodyLine(tools.parse(document.text))
  {
    hide Segments, Units, Groups, RenderAll, AllHeadings, Kept, ChunkOf, HasBodyLine, HasBodySegment, UnitPacker;
    var lines, blocks := tools.parse(document.text), BlocksOf(document, tools);
    BodySegments(lines, []);
    RenderedHeadings(Segments(lines, []));
    UnitsHeadings(blocks, maxTokens, tools);
    var units := Units(blocks, maxTokens, tools);
    GroupsArePacking(UnitPacker(minTokens, maxTokens, tools), units);
    KeptNothing(GroupsOf(document, minTokens, maxTokens, tools));
    NothingIsHeadings(blocks);
  }

  lemma {:induction false} NothingParsed(lines: seq<Line>, path: seq<string>)
    ensures Segments(lines, path) == [] <==> forall i :: 0 <= i < |lines| ==> lines[i].kind == Blank
    decreases |lines|
  {
    hide RunLength, KindOf, PathAfter;
    if lines != [] && lines[0].kind == Blank {
      NothingParsed(lines[1..], path);
      assert forall i :: 0 < i < |lines| ==> lines[i] == lines[1..][i - 1];
    }
  }

  /** The three refusals: a budget that makes no sense, then a document of blank lines only, then one that
      besides blank lines has only headings. */
  lemma ChunkingRefuses(document: Document, minTokens: int, maxTokens: int, tools: Tools)
    ensures var (r, lines) := (Chunked(document, minTokens, maxTokens, tools), tools.parse(document.text));
            var blank := forall i :: 0 <= i < |lines| ==> lines[i].kind == Blank;
            && (r == Err(InvalidBudget) <==> minTokens <= 0 || maxTokens < minTokens)
            && (r == Err(NoContent) <==> 0 < minTokens <= maxTokens && blank)
            && (r == Err(NothingProduced) <==> 0 < minTokens <= maxTokens && !blank && !HasBodyLine(lines))
  {
    hide Segments, Units, Groups, AllHeadings, Kept, ChunkOf, HasBodyLine, UnitPacker;
    ChunkingSucceeds(document, minTokens, maxTokens, tools);
    NothingParsed(tools.parse(document.text), []);
  }

  lemma NothingIsHeadings(blocks: seq<Block>)
    ensures blocks == [] ==> AllHeadings(blocks)
  {
  }
}
