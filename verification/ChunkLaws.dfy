/** What chunking keeps, when it goes over budget, and what its chunks are called (assistant/chunking.py). */
module ChunkLaws {
  import opened Blocks
  import opened Chunking
  import opened Packing
  import opened Registry
  import opened Sequences
  import opened Sorting
  import opened Strings
  import opened Wrappers

  // ------------------------------------------------------------------- conservation

  predicate NotHeading(unit: Block) {
    unit.kind != Heading
  }

  predicate IsTable(unit: Block) {
    unit.kind == Table
  }

  function KeptUnits(kept: seq<Numbered>): seq<Block> {
    if kept == [] then [] else KeptUnits(kept[..|kept| - 1]) + kept[|kept| - 1].group
  }

  lemma KeptUnitsAppend(kept: seq<Numbered>, n: Numbered)
    ensures KeptUnits(kept + [n]) == KeptUnits(kept) + n.group
  {
    assert (kept + [n])[..|kept|] == kept;
  }

  lemma {:induction false} FilterAbsent(units: seq<Block>, keep: Block -> bool)
    requires forall i :: 0 <= i < |units| ==> !keep(units[i])
    ensures Filter(units, keep) == []
  {
    if units != [] {
      FilterAbsent(units[..|units| - 1], keep);
    }
  }

  /** Dropping the groups that hold only headings loses no unit that a heading-free filter keeps. */
  lemma {:induction false} KeptConserves(groups: seq<seq<Block>>, keep: Block -> bool)
    requires forall unit :: keep(unit) ==> unit.kind != Heading
    ensures Filter(KeptUnits(Kept(groups)), keep) == Filter(Flatten(groups), keep)
  {
    hide Filter, AllHeadings;
    if groups == [] {
      FilterAbsent([], keep);
    } else {
      var n := |groups| - 1;
      KeptConserves(groups[..n], keep);
      FilterConcat(Flatten(groups[..n]), groups[n], keep);
      if AllHeadings(groups[n]) {
        HeadingsFiltered(groups[n], keep);
        assert Kept(groups) == Kept(groups[..n]);
      } else {
        KeptUnitsAppend(Kept(groups[..n]), Numbered(n, groups[n]));
        FilterConcat(KeptUnits(Kept(groups[..n])), groups[n], keep);
      }
    }
  }

  lemma HeadingsFiltered(group: seq<Block>, keep: Block -> bool)
    requires AllHeadings(group) && forall unit :: keep(unit) ==> unit.kind != Heading
    ensures Filter(group, keep) == []
  {
    FilterAbsent(group, keep);
  }

  lemma {:induction false} KeptOrdinals(groups: seq<seq<Block>>)
    ensures forall i :: 0 <= i < |Kept(groups)| ==> FromGroup(groups, Kept(groups)[i])
    ensures forall i, j :: 0 <= i < j < |Kept(groups)| ==> Kept(groups)[i].ordinal < Kept(groups)[j].ordinal
  {
    if groups != [] {
      var n := |groups| - 1;
      KeptOrdinals(groups[..n]);
      var front := Kept(groups[..n]);
      forall i | 0 <= i < |front|
        ensures FromGroup(groups, front[i])
      {
        assert FromGroup(groups[..n], front[i]);
      }
    }
  }

  /** The numbered group stands at its ordinal and is not all headings. */
  ghost predicate FromGroup(groups: seq<seq<Block>>, n: Numbered) {
    n.ordinal < |groups| && groups[n.ordinal] == n.group && !AllHeadings(n.group)
  }

  /** The chunks of a document, group by group: their texts are the groups' texts, their ordinals ascend,
      and together they hold every unit that is not a heading, once and in order. */
  lemma ChunksConserve(document: Document, minTokens: int, maxTokens: int, tools: Tools)
    requires tools.Sound() && Chunked(document, minTokens, maxTokens, tools).Ok?
    ensures var chunks, kept := Chunked(document, minTokens, maxTokens, tools).value, Kept(GroupsOf(document, minTokens, maxTokens, tools));
            && |chunks| == |kept|
            && (forall i :: 0 <= i < |chunks| ==> chunks[i].text == Join("\n\n", Texts(kept[i].group)) && chunks[i].ordinal == kept[i].ordinal)
            && (forall i, j :: 0 <= i < j < |chunks| ==> chunks[i].ordinal < chunks[j].ordinal)
            && Filter(KeptUnits(kept), NotHeading) == Filter(Units(BlocksOf(document, tools), maxTokens, tools), NotHeading)
  {
    hide Groups, Units, BlocksOf, UnitPacker, Filter, Join, Strip, AllHeadings, Kept;
    var groups := GroupsOf(document, minTokens, maxTokens, tools);
    var kept, chunks := Kept(groups), Chunked(document, minTokens, maxTokens, tools).value;
    KeptOrdinals(groups);
    forall i | 0 <= i < |chunks|
      ensures chunks[i].text == Join("\n\n", Texts(kept[i].group))
    {
      assert FromGroup(groups, kept[i]);
      GroupText(document, minTokens, maxTokens, tools, kept[i].ordinal);
    }
    GroupsArePacking(UnitPacker(minTokens, maxTokens, tools), Units(BlocksOf(document, tools), maxTokens, tools));
    KeptConserves(groups, NotHeading);
  }

  lemma TableUnits(block: Block, budget: int, tools: Tools)
    ensures Filter(UnitsOf(block, budget, tools), IsTable) == if block.kind == Table then [block] else []
  {
    hide Pieces;
    var units := UnitsOf(block, budget, tools);
    if block.kind == Table {
      assert units == [] + [block];
      FilterAppend([], block, IsTable);
    } else {
      FilterAbsent(units, IsTable);
    }
  }

  lemma {:induction false} TablesStayWhole(blocks: seq<Block>, budget: int, tools: Tools)
    ensures Filter(Units(blocks, budget, tools), IsTable) == Filter(blocks, IsTable)
  {
    hide UnitsOf;
    if blocks != [] {
      var n := |blocks| - 1;
      TablesStayWhole(blocks[..n], budget, tools);
      FilterConcat(Units(blocks[..n], budget, tools), UnitsOf(blocks[n], budget, tools), IsTable);
      TableUnits(blocks[n], budget, tools);
    }
  }

  /** The tables inside the chunks, in order, are exactly the document's tables, each whole. */
  lemma TablesSurvive(document: Document, minTokens: int, maxTokens: int, tools: Tools)
    ensures Filter(KeptUnits(Kept(GroupsOf(document, minTokens, maxTokens, tools))), IsTable) == Filter(BlocksOf(document, tools), IsTable)
  {
    hide Groups, Units, BlocksOf, UnitPacker, Filter, KeptUnits, Kept;
    KeptConserves(GroupsOf(document, minTokens, maxTokens, tools), IsTable);
    GroupsArePacking(UnitPacker(minTokens, maxTokens, tools), Units(BlocksOf(document, tools), maxTokens, tools));
    TablesStayWhole(BlocksOf(document, tools), maxTokens, tools);
  }

  lemma {:induction false} KeptHolder(kept: seq<Numbered>, unit: Block) returns (i: nat)
    requires unit in KeptUnits(kept)
    ensures i < |kept| && unit in kept[i].group
  {
    var n := |kept| - 1;
    if unit in kept[n].group {
      i := n;
    } else {
      i := KeptHolder(kept[..n], unit);
    }
  }

  /** Every table of the document stands whole inside some chunk's text. */
  lemma TableInChunk(document: Document, minTokens: int, maxTokens: int, tools: Tools, table: Block) returns (i: nat)
    requires tools.Sound() && Chunked(document, minTokens, maxTokens, tools).Ok?
    requires table in BlocksOf(document, tools) && table.kind == Table
    ensures var chunks := Chunked(document, minTokens, maxTokens, tools).value;
            i < |chunks| && Contains(chunks[i].text, table.text) && chunks[i].containsTable
  {
    hide GroupsOf, Units, BlocksOf, Filter, KeptUnits, Join, Strip, Kept, Contains;
    var kept, chunks := Kept(GroupsOf(document, minTokens, maxTokens, tools)), Chunked(document, minTokens, maxTokens, tools).value;
    TablesSurvive(document, minTokens, maxTokens, tools);
    FilterMembers(BlocksOf(document, tools), IsTable, table);
    FilterMembers(KeptUnits(kept), IsTable, table);
    i := KeptHolder(kept, table);
    ChunksConserve(document, minTokens, maxTokens, tools);
    var at :| 0 <= at < |kept[i].group| && kept[i].group[at] == table;
    JoinContains("\n\n", Texts(kept[i].group), at);
  }

  /** A unit that is not a heading stands whole inside some chunk's text. */
  lemma UnitInChunk(document: Document, minTokens: int, maxTokens: int, tools: Tools, unit: Block) returns (i: nat)
    requires tools.Sound() && Chunked(document, minTokens, maxTokens, tools).Ok?
    requires unit in Units(BlocksOf(document, tools), maxTokens, tools) && unit.kind != Heading
    ensures var chunks := Chunked(document, minTokens, maxTokens, tools).value;
            i < |chunks| && Contains(chunks[i].text, unit.text)
  {
    hide GroupsOf, Units, BlocksOf, Filter, KeptUnits, Join, Strip, Kept, Contains;
    var kept, chunks, blocks := Kept(GroupsOf(document, minTokens, maxTokens, tools)), Chunked(document, minTokens, maxTokens, tools).value, BlocksOf(document, tools);
    ChunksConserve(document, minTokens, maxTokens, tools);
    FilterMembers(Units(blocks, maxTokens, tools), NotHeading, unit);
    FilterMembers(KeptUnits(kept), NotHeading, unit);
    i := KeptHolder(kept, unit);
    var at :| 0 <= at < |kept[i].group| && kept[i].group[at] == unit;
    JoinContains("\n\n", Texts(kept[i].group), at);
  }

  /** A block that stays whole as a unit, unless it is a heading, stands whole inside some chunk's text. */
  lemma WholeBlockInChunk(document: Document, minTokens: int, maxTokens: int, tools: Tools, block: Block) returns (i: nat)
    requires tools.Sound() && Chunked(document, minTokens, maxTokens, tools).Ok?
    requires block in BlocksOf(document, tools) && block.kind != Heading
    requires block.kind == Table || tools.counter(block.text) <= maxTokens
    ensures var chunks := Chunked(document, minTokens, maxTokens, tools).value;
            i < |chunks| && Contains(chunks[i].text, block.text)
  {
    hide Units, BlocksOf, Contains, Chunked;
    var blocks := BlocksOf(document, tools);
    var b :| 0 <= b < |blocks| && blocks[b] == block;
    assert UnitsOf(block, maxTokens, tools) == [block];
    BlockUnits(blocks, b, block, maxTokens, tools);
    i := UnitInChunk(document, minTokens, maxTokens, tools, block);
  }

  lemma SentenceIsKept(text: string, sentence: string, tools: Tools)
    requires sentence in tools.sentences(text) && Inked(sentence)
    ensures sentence in Sentences(text, tools)
  {
    hide Inked;
    InksIsInked(sentence);
    FilterMembers(tools.sentences(text), Inks, sentence);
  }

  /** Splitting loses no words: of a block that is split, every sentence that is not blank stands in some
      chunk's text. */
  lemma SentenceInChunk(document: Document, minTokens: int, maxTokens: int, tools: Tools, block: Block, sentence: string) returns (i: nat)
    requires tools.Sound() && Chunked(document, minTokens, maxTokens, tools).Ok?
    requires block in BlocksOf(document, tools) && block.kind != Heading
    requires block.kind != Table && tools.counter(block.text) > maxTokens
    requires sentence in tools.sentences(block.text) && Inked(sentence)
    ensures var chunks := Chunked(document, minTokens, maxTokens, tools).value;
            i < |chunks| && Contains(chunks[i].text, Strip(sentence))
  {
    hide Units, BlocksOf, Contains, Chunked, Groups, Sentences, Join, Strip, Inked, Inks;
    var p, sentences := SentencePacker(maxTokens, tools), Sentences(block.text, tools);
    SentenceIsKept(block.text, sentence, tools);
    GroupsArePacking(p, sentences);
    var groups := Groups(p, sentences);
    var g := ItemHasGroup(groups, sentence);
    var at :| 0 <= at < |groups[g]| && groups[g][at] == sentence;
    JoinContains(" ", Map(groups[g], Strip), at);
    var unit := Block(block.kind, Pieces(block.text, maxTokens, tools)[g], block.path);
    assert UnitsOf(block, maxTokens, tools)[g] == unit;
    var blocks := BlocksOf(document, tools);
    var b :| 0 <= b < |blocks| && blocks[b] == block;
    BlockUnits(blocks, b, unit, maxTokens, tools);
    i := UnitInChunk(document, minTokens, maxTokens, tools, unit);
    ContainsTrans(Chunked(document, minTokens, maxTokens, tools).value[i].text, unit.text, Strip(sentence));
  }

  /** A piece ends only where its next sentence would overflow the budget, and holds two or more sentences
      only within it. */
  lemma PiecesAreFull(text: string, budget: int, tools: Tools, g: nat)
    requires g < |Groups(SentencePacker(budget, tools), Sentences(text, tools))|
    ensures var groups := Groups(SentencePacker(budget, tools), Sentences(text, tools));
            && Flatten(groups) == Sentences(text, tools)
            && (g + 1 < |groups| ==> groups[g + 1] != [] && Total(tools.counter, groups[g]) + tools.counter(groups[g + 1][0]) > budget)
            && (|groups[g]| >= 2 ==> Total(tools.counter, groups[g]) <= budget)
  {
    hide Groups, Sentences;
    var p := SentencePacker(budget, tools);
    var groups := Groups(p, Sentences(text, tools));
    GroupsArePacking(p, Sentences(text, tools));
    SentenceWeight(p, groups[g]);
    assert Fits(p, groups[g]);
    if |groups[g]| >= 2 {
      MultiItemWithinLimit(p, groups[g]);
    }
    if g + 1 < |groups| {
      assert Separated(p, groups, g);
    }
  }

  lemma {:induction false} SentenceWeight(p: Packer<string>, group: seq<string>)
    ensures Weight(p, group) == Total(p.weight, group)
  {
    if group != [] {
      SentenceWeight(p, group[..|group| - 1]);
    }
  }

  /** Path is that of the last unit that has one. */
  ghost predicate LastTrail(group: seq<Block>, path: seq<string>) {
    || (path == [] && forall i :: 0 <= i < |group| ==> group[i].path == [])
    || (path != [] && exists i :: 0 <= i < |group| && group[i].path == path && forall j :: i < j < |group| ==> group[j].path == [])
  }

  lemma {:induction false} TrailIsLast(group: seq<Block>)
    ensures LastTrail(group, TrailOf(group))
  {
    if group != [] {
      var k := |group| - 1;
      TrailIsLast(group[..k]);
      assert forall j :: 0 <= j < k ==> group[..k][j] == group[j];
    }
  }

  /** What a chunk says of itself is true: its size is that of its text, it is over or under the budget
      exactly when that size is (under it only as the one group of its document), it is flagged for a
      table exactly when a unit is one, and its trail is that of its last unit under a heading. */
  lemma ChunkDescribesItself(document: Document, minTokens: int, maxTokens: int, tools: Tools, i: nat)
    requires Chunked(document, minTokens, maxTokens, tools).Ok? && i < |Chunked(document, minTokens, maxTokens, tools).value|
    ensures var chunk := Chunked(document, minTokens, maxTokens, tools).value[i];
            var groups := GroupsOf(document, minTokens, maxTokens, tools);
            && chunk.tokenCount == tools.counter(chunk.text)
            && (chunk.oversize <==> tools.counter(chunk.text) > maxTokens)
            && (chunk.undersize <==> tools.counter(chunk.text) < minTokens && |groups| == 1)
            && chunk.ordinal < |groups|
            && (chunk.containsTable <==> exists unit :: unit in groups[chunk.ordinal] && unit.kind == Table)
            && LastTrail(groups[chunk.ordinal], chunk.headingPath)
            && chunk.docContentHash == tools.hash(document.Content())
  {
    hide GroupsOf, BlocksOf, Strip, Join, LastTrail, TrailOf, Kept;
    var groups := GroupsOf(document, minTokens, maxTokens, tools);
    KeptOrdinals(groups);
    var n := Kept(groups)[i];
    assert FromGroup(groups, n);
    TrailIsLast(n.group);
  }

  /** Every table row of the document stands in the text of a chunk that is flagged as holding a table. */
  lemma TableRowInChunk(document: Document, minTokens: int, maxTokens: int, tools: Tools, line: Line) returns (i: nat)
    requires tools.Sound() && Chunked(document, minTokens, maxTokens, tools).Ok?
    requires line in tools.parse(document.text) && line.kind.TableRow?
    ensures var chunks := Chunked(document, minTokens, maxTokens, tools).value;
            i < |chunks| && chunks[i].containsTable && Contains(chunks[i].text, Strip(line.raw))
  {
    hide GroupsOf, Units, Segments, RenderAll, Join, Strip, Kept, Contains, Classified;
    var k := LineInBlock(tools.parse(document.text), line);
    var table := BlocksOf(document, tools)[k];
    i := TableInChunk(document, minTokens, maxTokens, tools, table);
    ContainsTrans(Chunked(document, minTokens, maxTokens, tools).value[i].text, table.text, Strip(line.raw));
  }

  /** So does every list item and plain line whose block is within the budget. */
  lemma LineInChunk(document: Document, minTokens: int, maxTokens: int, tools: Tools, line: Line) returns (k: nat, i: nat)
    requires tools.Sound() && Chunked(document, minTokens, maxTokens, tools).Ok?
    requires line in tools.parse(document.text) && IsBody(line)
    ensures k < |BlocksOf(document, tools)| && Contains(BlocksOf(document, tools)[k].text, Strip(line.raw))
    ensures var block, chunks := BlocksOf(document, tools)[k], Chunked(document, minTokens, maxTokens, tools).value;
            block.kind == Table || tools.counter(block.text) <= maxTokens ==> i < |chunks| && Contains(chunks[i].text, Strip(line.raw))
  {
    hide GroupsOf, Units, Segments, RenderAll, Join, Strip, Kept, Contains, Classified, Chunked;
    k := LineInBlock(tools.parse(document.text), line);
    var block := BlocksOf(document, tools)[k];
    i := 0;
    if block.kind == Table || tools.counter(block.text) <= maxTokens {
      i := WholeBlockInChunk(document, minTokens, maxTokens, tools, block);
      ContainsTrans(Chunked(document, minTokens, maxTokens, tools).value[i].text, block.text, Strip(line.raw));
    }
  }

  // ------------------------------------------------------------------------ budgets

  lemma {:induction false} TextsWeight(p: Packer<Block>, group: seq<Block>, tools: Tools)
    requires forall unit :: p.weight(unit) == tools.counter(unit.text)
    ensures Weight(p, group) == Total(tools.counter, Texts(group))
  {
    if group != [] {
      var n := |group| - 1;
      TextsWeight(p, group[..n], tools);
      assert Texts(group)[..n] == Texts(group[..n]);
    }
  }

  lemma {:induction false} StrippedTotal(group: seq<string>, tools: Tools)
    requires tools.Additive()
    ensures Weight(SentencePacker(0, tools), group) == Total(tools.counter, Map(group, Strip))
  {
    hide Strip;
    if group != [] {
      var n := |group| - 1;
      StrippedTotal(group[..n], tools);
      assert Map(group, Strip)[..n] == Map(group[..n], Strip);
      assert tools.counter(Strip(group[n])) == tools.counter(group[n]);
    }
  }

  lemma {:induction false} WeightIgnoresLimit(p: Packer<string>, q: Packer<string>, group: seq<string>)
    requires p.weight == q.weight
    ensures Weight(p, group) == Weight(q, group)
  {
    if group != [] {
      WeightIgnoresLimit(p, q, group[..|group| - 1]);
    }
  }

  /** A piece costs what its sentences cost. */
  lemma PieceTokens(group: seq<string>, budget: int, tools: Tools)
    requires tools.Additive()
    ensures tools.counter(JoinStripped(group)) == Weight(SentencePacker(budget, tools), group)
  {
    hide Strip, Join;
    StrippedTotal(group, tools);
    WeightIgnoresLimit(SentencePacker(0, tools), SentencePacker(budget, tools), group);
  }

  /** A chunk costs what its units cost. */
  lemma GroupTokens(document: Document, minTokens: int, maxTokens: int, tools: Tools, g: nat)
    requires tools.Sound() && tools.Additive() && g < |GroupsOf(document, minTokens, maxTokens, tools)|
    ensures var group := GroupsOf(document, minTokens, maxTokens, tools)[g];
            tools.counter(Strip(Join("\n\n", Texts(group)))) == Weight(UnitPacker(minTokens, maxTokens, tools), group)
  {
    hide Strip, Join, Groups, Units, BlocksOf, Weight;
    TextsWeight(UnitPacker(minTokens, maxTokens, tools), GroupsOf(document, minTokens, maxTokens, tools)[g], tools);
  }

  lemma SingleStripped(sentence: string)
    ensures JoinStripped([sentence]) == Strip(sentence)
  {
    hide Strip;
    assert Map([sentence], Strip) == [Strip(sentence)];
  }

  /** The unit is this sentence of this block, too long to share a unit. */
  ghost predicate IsLongSentence(unit: Block, block: Block, sentence: string, budget: int, tools: Tools) {
    && block.kind != Table && tools.counter(block.text) > budget
    && sentence in Sentences(block.text, tools) && tools.counter(sentence) > budget
    && unit == Block(block.kind, Strip(sentence), block.path)
  }

  /** An over-budget piece is one over-long sentence. */
  lemma LongPiece(block: Block, i: nat, budget: int, tools: Tools) returns (sentence: string)
    requires tools.Additive() && block.kind != Table && tools.counter(block.text) > budget
    requires i < |Pieces(block.text, budget, tools)| && tools.counter(Pieces(block.text, budget, tools)[i]) > budget
    ensures IsLongSentence(Block(block.kind, Pieces(block.text, budget, tools)[i], block.path), block, sentence, budget, tools)
  {
    hide Strip, Groups, Sentences, JoinStripped, Tools.Additive;
    var p, sentences := SentencePacker(budget, tools), Sentences(block.text, tools);
    var group := Groups(p, sentences)[i];
    PackedMembers(p, sentences, i);
    PieceTokens(group, budget, tools);
    sentence := group[0];
    OverLimitAlone(p, group, sentence);
    assert group == [sentence];
    SingleStripped(sentence);
  }

  /** An over-long sentence makes an over-budget unit of its own. */
  lemma LongSentenceUnit(block: Block, sentence: string, budget: int, tools: Tools)
    requires tools.Additive() && block.kind != Table && tools.counter(block.text) > budget
    requires sentence in Sentences(block.text, tools) && tools.counter(sentence) > budget
    ensures Block(block.kind, Strip(sentence), block.path) in UnitsOf(block, budget, tools)
    ensures tools.counter(Strip(sentence)) > budget
  {
    hide Groups, Sentences, JoinStripped, Strip;
    var p, sentences := SentencePacker(budget, tools), Sentences(block.text, tools);
    GroupsArePacking(p, sentences);
    var g := ItemHasGroup(Groups(p, sentences), sentence);
    PackedMembers(p, sentences, g);
    OverLimitAlone(p, Groups(p, sentences)[g], sentence);
    SingleStripped(sentence);
    assert Pieces(block.text, budget, tools)[g] == Strip(sentence);
    assert UnitsOf(block, budget, tools)[g] == Block(block.kind, Strip(sentence), block.path);
  }

  lemma {:induction false} UnitOrigin(blocks: seq<Block>, unit: Block, budget: int, tools: Tools) returns (b: nat)
    requires unit in Units(blocks, budget, tools)
    ensures b < |blocks| && unit in UnitsOf(blocks[b], budget, tools)
  {
    hide UnitsOf;
    var n := |blocks| - 1;
    if unit in UnitsOf(blocks[n], budget, tools) {
      b := n;
    } else {
      b := UnitOrigin(blocks[..n], unit, budget, tools);
    }
  }

  lemma {:induction false} BlockUnits(blocks: seq<Block>, b: nat, unit: Block, budget: int, tools: Tools)
    requires b < |blocks| && unit in UnitsOf(blocks[b], budget, tools)
    ensures unit in Units(blocks, budget, tools)
  {
    hide UnitsOf;
    var n := |blocks| - 1;
    if b < n {
      BlockUnits(blocks[..n], b, unit, budget, tools);
    }
  }

  /** An over-budget unit is a table or a single over-long sentence. */
  lemma OverBudgetUnit(blocks: seq<Block>, unit: Block, budget: int, tools: Tools) returns (b: nat, sentence: string)
    requires tools.Additive() && unit in Units(blocks, budget, tools) && tools.counter(unit.text) > budget
    ensures b < |blocks|
    ensures (unit.kind == Table && unit == blocks[b]) || IsLongSentence(unit, blocks[b], sentence, budget, tools)
  {
    hide Units, Pieces, IsLongSentence, Tools.Additive;
    b := UnitOrigin(blocks, unit, budget, tools);
    sentence := "";
    var block := blocks[b];
    if block.kind != Table && tools.counter(block.text) > budget {
      var pieces := Pieces(block.text, budget, tools);
      var i :| 0 <= i < |pieces| && PieceBlocks(block, pieces)[i] == unit;
      sentence := LongPiece(block, i, budget, tools);
    }
  }

  /** A chunk over the budget is a single unit: a table, or one sentence longer than the budget. */
  lemma OversizeChunk(document: Document, minTokens: int, maxTokens: int, tools: Tools, i: nat)
    returns (unit: Block, b: nat, sentence: string)
    requires tools.Sound() && tools.Additive() && Chunked(document, minTokens, maxTokens, tools).Ok?
    requires i < |Chunked(document, minTokens, maxTokens, tools).value| && Chunked(document, minTokens, maxTokens, tools).value[i].oversize
    ensures Kept(GroupsOf(document, minTokens, maxTokens, tools))[i].group == [unit] && unit.kind != Heading
    ensures b < |BlocksOf(document, tools)|
    ensures (unit.kind == Table && unit == BlocksOf(document, tools)[b])
         || IsLongSentence(unit, BlocksOf(document, tools)[b], sentence, maxTokens, tools)
  {
    hide Groups, Units, BlocksOf, Strip, Join, IsLongSentence, Tools.Additive, Tools.Sound, Kept;
    var groups, p := GroupsOf(document, minTokens, maxTokens, tools), UnitPacker(minTokens, maxTokens, tools);
    var n := Kept(groups)[i];
    KeptOrdinals(groups);
    assert FromGroup(groups, n);
    GroupTokens(document, minTokens, maxTokens, tools, n.ordinal);
    PackedMembers(p, Units(BlocksOf(document, tools), maxTokens, tools), n.ordinal);
    unit := n.group[0];
    OverLimitAlone(p, n.group, unit);
    assert n.group == [unit];
    b, sentence := OverBudgetUnit(BlocksOf(document, tools), unit, maxTokens, tools);
  }

  /** A block, neither table nor heading, over the budget with a sentence over the budget. */
  ghost predicate HasLongSentence(block: Block, budget: int, tools: Tools) {
    && block.kind != Table && block.kind != Heading && tools.counter(block.text) > budget
    && exists sentence :: sentence in Sentences(block.text, tools) && tools.counter(sentence) > budget
  }

  lemma {:induction false} GroupKept(groups: seq<seq<Block>>, g: nat) returns (i: nat)
    requires g < |groups| && !AllHeadings(groups[g])
    ensures i < |Kept(groups)| && Kept(groups)[i] == Numbered(g, groups[g])
  {
    hide AllHeadings;
    var n := |groups| - 1;
    if g == n {
      i := |Kept(groups[..n])|;
    } else {
      i := GroupKept(groups[..n], g);
    }
  }

  /** A block with an over-long sentence makes an over-budget chunk without a table. */
  lemma LongSentenceChunk(document: Document, minTokens: int, maxTokens: int, tools: Tools, b: nat) returns (i: nat)
    requires tools.Sound() && tools.Additive() && Chunked(document, minTokens, maxTokens, tools).Ok?
    requires b < |BlocksOf(document, tools)| && HasLongSentence(BlocksOf(document, tools)[b], maxTokens, tools)
    ensures var chunks := Chunked(document, minTokens, maxTokens, tools).value;
            i < |chunks| && chunks[i].oversize && !chunks[i].containsTable
  {
    hide Groups, Units, UnitsOf, BlocksOf, Strip, Join, Sentences, Tools.Additive, Tools.Sound, Kept;
    var blocks := BlocksOf(document, tools);
    var block := blocks[b];
    var sentence :| sentence in Sentences(block.text, tools) && tools.counter(sentence) > maxTokens;
    var unit := Block(block.kind, Strip(sentence), block.path);
    LongSentenceUnit(block, sentence, maxTokens, tools);
    BlockUnits(blocks, b, unit, maxTokens, tools);
    var groups, p, units := GroupsOf(document, minTokens, maxTokens, tools), UnitPacker(minTokens, maxTokens, tools), Units(blocks, maxTokens, tools);
    GroupsArePacking(p, units);
    var g := ItemHasGroup(groups, unit);
    PackedMembers(p, units, g);
    OverLimitAlone(p, groups[g], unit);
    assert groups[g] == [unit];
    i := GroupKept(groups, g);
    GroupTokens(document, minTokens, maxTokens, tools, g);
    WeightAtLeastItem(p, groups[g], unit);
  }

  /** The documented reading of an over-budget chunk, that it always holds a table, is right exactly for
      documents in which no over-long paragraph or list has a sentence longer than the budget. */
  lemma OversizeMeansTable(document: Document, minTokens: int, maxTokens: int, tools: Tools)
    requires tools.Sound() && tools.Additive() && Chunked(document, minTokens, maxTokens, tools).Ok?
    ensures (forall i :: 0 <= i < |Chunked(document, minTokens, maxTokens, tools).value| ==>
               Chunked(document, minTokens, maxTokens, tools).value[i].oversize ==> Chunked(document, minTokens, maxTokens, tools).value[i].containsTable)
        <==> (forall b :: 0 <= b < |BlocksOf(document, tools)| ==> !HasLongSentence(BlocksOf(document, tools)[b], maxTokens, tools))
  {
    hide GroupsOf, Units, BlocksOf, Strip, Join, Sentences, Tools.Additive, Tools.Sound, Kept;
    var chunks, blocks := Chunked(document, minTokens, maxTokens, tools).value, BlocksOf(document, tools);
    if b :| 0 <= b < |blocks| && HasLongSentence(blocks[b], maxTokens, tools) {
      var i := LongSentenceChunk(document, minTokens, maxTokens, tools, b);
    }
    if i :| 0 <= i < |chunks| && chunks[i].oversize && !chunks[i].containsTable {
      var unit, b, sentence := OversizeChunk(document, minTokens, maxTokens, tools, i);
      assert Kept(GroupsOf(document, minTokens, maxTokens, tools))[i].group[0] == unit;
      assert HasLongSentence(blocks[b], maxTokens, tools);
    }
  }

  /** The next unit is a heading past the floor, or would overflow. */
  ghost predicate EndsHere(group: seq<Block>, next: Block, minTokens: int, maxTokens: int, tools: Tools) {
    var packed := Weight(UnitPacker(minTokens, maxTokens, tools), group);
    (next.kind == Heading && packed >= minTokens) || packed + tools.counter(next.text) > maxTokens
  }

  /** Within a chunk a heading comes only before the floor is reached, and a chunk ends only at a heading
      past the floor or where the next unit would overflow. */
  lemma ChunkBoundaries(document: Document, minTokens: int, maxTokens: int, tools: Tools, g: nat)
    requires g < |GroupsOf(document, minTokens, maxTokens, tools)|
    ensures var groups, p := GroupsOf(document, minTokens, maxTokens, tools), UnitPacker(minTokens, maxTokens, tools);
            && (forall i :: 1 <= i < |groups[g]| && groups[g][i].kind == Heading ==> Weight(p, groups[g][..i]) < minTokens)
            && (|groups[g]| >= 2 ==> Weight(p, groups[g]) <= maxTokens)
            && (g + 1 < |groups| ==> groups[g + 1] != [] && EndsHere(groups[g], groups[g + 1][0], minTokens, maxTokens, tools))
  {
    hide Groups, Units, BlocksOf, Weight;
    var groups, p := GroupsOf(document, minTokens, maxTokens, tools), UnitPacker(minTokens, maxTokens, tools);
    GroupsArePacking(p, Units(BlocksOf(document, tools), maxTokens, tools));
    assert Fits(p, groups[g]);
    if |groups[g]| >= 2 {
      MultiItemWithinLimit(p, groups[g]);
    }
    forall i | 1 <= i < |groups[g]| && groups[g][i].kind == Heading
      ensures Weight(p, groups[g][..i]) < minTokens
    {
      assert !Cuts(p, groups[g][..i], groups[g][i]);
    }
    if g + 1 < |groups| {
      assert Separated(p, groups, g);
    }
  }

  // ---------------------------------------------------------------------- identity

  /** Within a document chunk ids differ, whatever the digest. */
  lemma ChunkIdsDiffer(document: Document, minTokens: int, maxTokens: int, tools: Tools, i: nat, j: nat)
    requires Chunked(document, minTokens, maxTokens, tools).Ok? && i < j < |Chunked(document, minTokens, maxTokens, tools).value|
    ensures var chunks := Chunked(document, minTokens, maxTokens, tools).value;
            chunks[i].chunkId != chunks[j].chunkId
  {
    hide Groups, Units, BlocksOf, UnitPacker, Strip, Join, Kept, Pad3;
    var kept := Kept(GroupsOf(document, minTokens, maxTokens, tools));
    var chunks := Chunked(document, minTokens, maxTokens, tools).value;
    KeptOrdinals(GroupsOf(document, minTokens, maxTokens, tools));
    SameIdSameOrdinal(document, kept[i].ordinal, kept[j].ordinal, chunks[i].text, chunks[j].text, tools);
  }

  lemma SameIdSameOrdinal(document: Document, m: nat, n: nat, x: string, y: string, tools: Tools)
    ensures ChunkId(document, m, x, tools) == ChunkId(document, n, y, tools) ==> m == n
  {
    hide Pad3, Value;
    var key, s, t := document.CitationKey() + "#", ChunkId(document, m, x, tools), ChunkId(document, n, y, tools);
    assert s[|key|..] == Pad3(m) + "-" + tools.digest(x);
    assert t[|key|..] == Pad3(n) + "-" + tools.digest(y);
    Pad3ReadsBack(m);
    Pad3ReadsBack(n);
    if s == t {
      SameBeforeDash(Pad3(m), Pad3(n), tools.digest(x), tools.digest(y));
    }
  }

  /** Hexadecimal digests hold no '#'. */
  ghost predicate PlainDigest(tools: Tools) {
    forall body :: '#' !in tools.digest(body)
  }

  lemma LastMark(a: string, b: string, x: string, y: string)
    requires '#' !in x && '#' !in y && a + "#" + x == b + "#" + y
    ensures a == b
  {
    var s, t := a + "#" + x, b + "#" + y;
    assert s[|a|] == '#' && t[|b|] == '#';
    assert forall i :: |a| < i < |s| ==> s[i] == x[i - |a| - 1];
    assert forall i :: |b| < i < |t| ==> t[i] == y[i - |b| - 1];
    assert s[..|a|] == a && t[..|b|] == b;
  }

  lemma DigitsHaveNoMark(s: string)
    requires AllDigits(s)
    ensures '#' !in s
  {
  }

  /** Across a corpus a chunk id names one document and one place in it. */
  lemma ChunkIdNamesDocument(a: Document, b: Document, m: nat, n: nat, x: string, y: string, tools: Tools)
    requires PlainDigest(tools) && ChunkId(a, m, x, tools) == ChunkId(b, n, y, tools)
    ensures a.CitationKey() == b.CitationKey() && m == n
  {
    hide Pad3, Value;
    Pad3ReadsBack(m);
    Pad3ReadsBack(n);
    DigitsHaveNoMark(Pad3(m));
    DigitsHaveNoMark(Pad3(n));
    var p, q := Pad3(m) + "-" + tools.digest(x), Pad3(n) + "-" + tools.digest(y);
    assert ChunkId(a, m, x, tools) == a.CitationKey() + "#" + p;
    assert ChunkId(b, n, y, tools) == b.CitationKey() + "#" + q;
    LastMark(a.CitationKey(), b.CitationKey(), p, q);
    SameIdSameOrdinal(a, m, n, x, y, tools);
    assert ChunkId(a, n, y, tools) == ChunkId(b, n, y, tools);
  }

  /** The governance fields a chunk copies from its document. */
  ghost predicate Inherits(chunk: Chunk, document: Document) {
    && chunk.docId == document.docId && chunk.version == document.version && chunk.citationKey == document.CitationKey()
    && chunk.kind == document.kind && chunk.owner == document.owner && chunk.language == document.language
    && chunk.effectiveFrom == Some(document.effectiveFrom) && chunk.effectiveTo == document.effectiveTo
    && chunk.productTags == document.productTags
  }

  lemma ChunksInherit(document: Document, minTokens: int, maxTokens: int, tools: Tools)
    requires Chunked(document, minTokens, maxTokens, tools).Ok?
    ensures forall i :: 0 <= i < |Chunked(document, minTokens, maxTokens, tools).value| ==>
              Inherits(Chunked(document, minTokens, maxTokens, tools).value[i], document)
  {
    hide Groups, Units, BlocksOf, UnitPacker, Strip, Join, Kept, Pad3;
  }

  /** A chunk is in force exactly when its document is. */
  lemma InheritedWindow(chunk: Chunk, document: Document, asOf: Date)
    requires Inherits(chunk, document)
    ensures chunk.IsEffectiveOn(asOf) <==> document.IsEffectiveOn(asOf)
  {
  }
}
