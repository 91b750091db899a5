/** Extracting passages and a text ledger from an XHTML body (packages/epub-ingestion/src/extractor.ts). */
module Extractor {
  import opened Wrappers
  import opened Text

  datatype Name =
    | Address | Aside | Blockquote | Dd | Div | Dt | Figcaption | Figure
    | H1 | H2 | H3 | H4 | H5 | H6 | Li | P | Pre
    | Script | Style | Rt | Rp | Ruby
    | Other(name: string)

  /** A text node of the parsed tree; `id` stands for its identity as an object. */
  datatype TextNode = TextNode(id: nat, content: string)

  datatype Node =
    | Leaf(text: TextNode)
    | Elem(name: Name, pagebreak: bool, children: seq<Node>)

  datatype Role = Source | LayoutWhitespace | NonStoryMarkup | RubyAnnotation

  datatype Entry = Entry(node: TextNode, role: Role)

  datatype ExtractionError = ReordersParentText | NoPassageRoot

  datatype Extraction = Extraction(ledger: seq<Entry>, passages: seq<string>)

  predicate IsMarkup(node: Node)
    requires node.Elem?
  {
    node.name.Script? || node.name.Style?
  }

  predicate IsReading(node: Node)
    requires node.Elem?
  {
    node.name.Rt? || node.name.Rp?
  }

  predicate IsPassageElement(node: Node)
    requires node.Elem?
  {
    node.pagebreak || !(IsMarkup(node) || IsReading(node) || node.name.Ruby? || node.name.Other?)
  }

  // Each pass over a forest is a pass over its nodes in order; `...In` is the part for one node.

  function TextsIn(node: Node): seq<TextNode> {
    match node case Leaf(text) => [text] case Elem(_, _, children) => TextsOf(children)
  }

  function TextsOf(forest: seq<Node>): seq<TextNode> {
    if forest == [] then [] else TextsIn(forest[0]) + TextsOf(forest[1..])
  }

  function Spell(nodes: seq<TextNode>): string {
    if nodes == [] then "" else nodes[0].content + Spell(nodes[1..])
  }

  function Mark(nodes: seq<TextNode>, role: Role): seq<Entry> {
    seq(|nodes|, i requires 0 <= i < |nodes| => Entry(nodes[i], role))
  }

  function NodesOf(entries: seq<Entry>): seq<TextNode> {
    seq(|entries|, i requires 0 <= i < |entries| => entries[i].node)
  }

  // ---------------------------------------------------------------- what each pass collects

  /** Text the nested-order check attributes to a passage element. */
  function OwnNodes(forest: seq<Node>): seq<TextNode> {
    if forest == [] then [] else OwnIn(forest[0]) + OwnNodes(forest[1..])
  }

  function OwnIn(node: Node): seq<TextNode> {
    match node
    case Leaf(text) => [text]
    case Elem(_, _, children) =>
      if IsMarkup(node) || IsReading(node) || IsPassageElement(node) then [] else OwnNodes(children)
  }

  predicate HasNestedRoot(forest: seq<Node>) {
    forest != [] && (
      || HasNestedRoot(forest[1..])
      || (forest[0].Elem? && !IsMarkup(forest[0]) && !IsReading(forest[0])
          && (IsPassageElement(forest[0]) || HasNestedRoot(forest[0].children))))
  }

  /** No passage element with text of its own contains another one. */
  predicate OrderIsKept(forest: seq<Node>) {
    forest == [] || (
      && OrderIsKept(forest[1..])
      && (forest[0].Elem? ==>
            && (IsPassageElement(forest[0]) && HasNestedRoot(forest[0].children) ==> Blank(Spell(OwnNodes(forest[0].children))))
            && OrderIsKept(forest[0].children)))
  }

  /** Source nodes met by `walk`. */
  function WalkSource(forest: seq<Node>): seq<TextNode> {
    if forest == [] then [] else SourceIn(forest[0]) + WalkSource(forest[1..])
  }

  function SourceIn(node: Node): seq<TextNode> {
    match node
    case Leaf(text) => [text]
    case Elem(_, _, children) =>
      if IsPassageElement(node) || IsMarkup(node) || IsReading(node) then []
      else if node.name.Ruby? then RubySource(children)
      else WalkSource(children)
  }

  function RubySource(forest: seq<Node>): seq<TextNode> {
    if forest == [] then [] else RubySourceIn(forest[0]) + RubySource(forest[1..])
  }

  function RubySourceIn(node: Node): seq<TextNode> {
    match node
    case Leaf(text) => [text]
    case Elem(_, _, children) => if IsReading(node) then [] else WalkSource(children)
  }

  /** Ledger entries `walk` pushes on the way: markup text and ruby readings. */
  function WalkLedger(forest: seq<Node>): seq<Entry> {
    if forest == [] then [] else LedgerIn(forest[0]) + WalkLedger(forest[1..])
  }

  function LedgerIn(node: Node): seq<Entry> {
    match node
    case Leaf(_) => []
    case Elem(_, _, children) =>
      if IsPassageElement(node) then []
      else if IsMarkup(node) then Mark(TextsOf(children), NonStoryMarkup)
      else if IsReading(node) then []
      else if node.name.Ruby? then RubyLedger(children) + RubyReadings(children)
      else WalkLedger(children)
  }

  function RubyLedger(forest: seq<Node>): seq<Entry> {
    if forest == [] then [] else RubyLedgerIn(forest[0]) + RubyLedger(forest[1..])
  }

  function RubyLedgerIn(node: Node): seq<Entry> {
    match node
    case Leaf(_) => []
    case Elem(_, _, children) => if IsReading(node) then [] else WalkLedger(children)
  }

  function RubyReadings(forest: seq<Node>): seq<Entry> {
    if forest == [] then [] else ReadingsIn(forest[0]) + RubyReadings(forest[1..])
  }

  function ReadingsIn(node: Node): seq<Entry> {
    match node
    case Leaf(_) => []
    case Elem(_, _, children) => if IsReading(node) then Mark(TextsOf(children), RubyAnnotation) else []
  }

  function BlockRole(nodes: seq<TextNode>): Role {
    if Blank(Spell(nodes)) then LayoutWhitespace else Source
  }

  function BlockLedger(children: seq<Node>): seq<Entry> {
    WalkLedger(children) + Mark(WalkSource(children), BlockRole(WalkSource(children)))
  }

  function BlockPassage(children: seq<Node>): seq<seq<TextNode>> {
    if Blank(Spell(WalkSource(children))) then [] else [WalkSource(children)]
  }

  function VisitLedger(forest: seq<Node>): seq<Entry> {
    if forest == [] then [] else VisitIn(forest[0]) + VisitLedger(forest[1..])
  }

  function VisitIn(node: Node): seq<Entry> {
    match node
    case Leaf(_) => []
    case Elem(_, _, children) =>
      (if IsPassageElement(node) then BlockLedger(children) else []) + VisitLedger(children)
  }

  /** The source nodes of each extracted passage, in the order the passages are pushed. */
  function VisitPassages(forest: seq<Node>): seq<seq<TextNode>> {
    if forest == [] then [] else PassagesIn(forest[0]) + VisitPassages(forest[1..])
  }

  function PassagesIn(node: Node): seq<seq<TextNode>> {
    match node
    case Leaf(_) => []
    case Elem(_, _, children) =>
      (if IsPassageElement(node) then BlockPassage(children) else []) + VisitPassages(children)
  }

  function SpellEach(blocks: seq<seq<TextNode>>): seq<string> {
    seq(|blocks|, i requires 0 <= i < |blocks| => Spell(blocks[i]))
  }

  function Concat(blocks: seq<seq<TextNode>>): seq<TextNode> {
    if blocks == [] then [] else blocks[0] + Concat(blocks[1..])
  }

  /** Entries `captureSpecial` adds for the text not yet seen. */
  function Captured(forest: seq<Node>, seen: set<TextNode>, markup: bool): seq<Entry> {
    if forest == [] then [] else CapturedIn(forest[0], seen, markup) + Captured(forest[1..], seen, markup)
  }

  function CapturedIn(node: Node, seen: set<TextNode>, markup: bool): seq<Entry> {
    match node
    case Leaf(text) => if text in seen then [] else [Entry(text, if markup then NonStoryMarkup else LayoutWhitespace)]
    case Elem(_, _, children) => Captured(children, seen, markup || IsMarkup(node))
  }

  predicate Uncapturable(forest: seq<Node>, seen: set<TextNode>, markup: bool) {
    forest != [] && (
      || (match forest[0]
          case Leaf(text) => text !in seen && !markup && !Blank(text.content)
          case Elem(_, _, children) => Uncapturable(children, seen, markup || IsMarkup(forest[0])))
      || Uncapturable(forest[1..], seen, markup))
  }

  function SeenBy(entries: seq<Entry>): set<TextNode> {
    set i | 0 <= i < |entries| :: entries[i].node
  }

  // ---------------------------------------------------------------- the passes themselves

  // One loop step of each pass: the part for one node, then the passes over the later ones.

  lemma RecordStep(forest: seq<Node>, i: nat, role: Role, done: seq<Entry>)
    requires i < |forest|
    ensures done + Mark(TextsOf(forest[i..]), role)
         == done + Mark(TextsIn(forest[i]), role) + Mark(TextsOf(forest[i + 1..]), role)
  {
    assert forest[i..][1..] == forest[i + 1..];
    assert Mark(TextsOf(forest[i..]), role) == Mark(TextsIn(forest[i]), role) + Mark(TextsOf(forest[i + 1..]), role);
  }

  lemma WalkStep(forest: seq<Node>, i: nat, nodes: seq<TextNode>, done: seq<Entry>)
    requires i < |forest|
    ensures nodes + WalkSource(forest[i..]) == nodes + SourceIn(forest[i]) + WalkSource(forest[i + 1..])
    ensures done + WalkLedger(forest[i..]) == done + LedgerIn(forest[i]) + WalkLedger(forest[i + 1..])
  {
    assert forest[i..][1..] == forest[i + 1..];
  }

  lemma RubyStep(forest: seq<Node>, i: nat, nodes: seq<TextNode>, done: seq<Entry>)
    requires i < |forest|
    ensures nodes + RubySource(forest[i..]) == nodes + RubySourceIn(forest[i]) + RubySource(forest[i + 1..])
    ensures done + RubyLedger(forest[i..]) == done + RubyLedgerIn(forest[i]) + RubyLedger(forest[i + 1..])
  {
    assert forest[i..][1..] == forest[i + 1..];
  }

  lemma ReadingsStep(forest: seq<Node>, i: nat, done: seq<Entry>)
    requires i < |forest|
    ensures done + RubyReadings(forest[i..]) == done + ReadingsIn(forest[i]) + RubyReadings(forest[i + 1..])
  {
    assert forest[i..][1..] == forest[i + 1..];
  }

  lemma VisitStep(forest: seq<Node>, i: nat, done: seq<Entry>, blocks: seq<seq<TextNode>>)
    requires i < |forest|
    ensures done + VisitLedger(forest[i..]) == done + VisitIn(forest[i]) + VisitLedger(forest[i + 1..])
    ensures blocks + VisitPassages(forest[i..]) == blocks + PassagesIn(forest[i]) + VisitPassages(forest[i + 1..])
  {
    assert forest[i..][1..] == forest[i + 1..];
  }

  lemma SpellEachAppend(a: seq<seq<TextNode>>, b: seq<seq<TextNode>>)
    ensures SpellEach(a + b) == SpellEach(a) + SpellEach(b)
  {
  }

  class DocumentExtractor {
    var ledger: seq<Entry>
    var passages: seq<string>

    constructor ()
      ensures ledger == [] && passages == []
    {
      ledger, passages := [], [];
    }

    /** `recordUnclaimed` and `markRubyText`. */
    method Record(forest: seq<Node>, role: Role)
      modifies this`ledger
      ensures ledger == old(ledger) + Mark(TextsOf(forest), role)
    {
      ghost var done: seq<Entry> := [];
      for i := 0 to |forest|
        invariant ledger == old(ledger) + done
        invariant done + Mark(TextsOf(forest[i..]), role) == Mark(TextsOf(forest), role)
      {
        RecordStep(forest, i, role, done);
        match forest[i] {
          case Leaf(text) => ledger := ledger + [Entry(text, role)];
          case Elem(_, _, children) => Record(children, role);
        }
        done := done + Mark(TextsIn(forest[i]), role);
      }
    }

    method Walk(forest: seq<Node>) returns (nodes: seq<TextNode>)
      modifies this`ledger
      ensures nodes == WalkSource(forest) && ledger == old(ledger) + WalkLedger(forest)
    {
      nodes := [];
      ghost var done: seq<Entry> := [];
      for i := 0 to |forest|
        invariant ledger == old(ledger) + done
        invariant nodes + WalkSource(forest[i..]) == WalkSource(forest)
        invariant done + WalkLedger(forest[i..]) == WalkLedger(forest)
      {
        WalkStep(forest, i, nodes, done);
        var inner := WalkNode(forest[i]);
        nodes := nodes + inner;
        done := done + LedgerIn(forest[i]);
      }
    }

    method WalkNode(child: Node) returns (nodes: seq<TextNode>)
      modifies this`ledger
      ensures nodes == SourceIn(child) && ledger == old(ledger) + LedgerIn(child)
    {
      match child
      case Leaf(text) =>
        nodes := [text];
      case Elem(_, _, children) =>
        if IsPassageElement(child) { return []; }
        if IsMarkup(child) {
          Record(children, NonStoryMarkup);
          return [];
        }
        if IsReading(child) { return []; }
        ghost var before := ledger;
        if child.name.Ruby? {
          nodes := WalkRuby(children);
          RecordReadings(children);
          assert ledger == before + (RubyLedger(children) + RubyReadings(children));
        } else {
          nodes := Walk(children);
        }
    }

    method WalkRuby(forest: seq<Node>) returns (nodes: seq<TextNode>)
      modifies this`ledger
      ensures nodes == RubySource(forest) && ledger == old(ledger) + RubyLedger(forest)
    {
      nodes := [];
      ghost var done: seq<Entry> := [];
      for i := 0 to |forest|
        invariant ledger == old(ledger) + done
        invariant nodes + RubySource(forest[i..]) == RubySource(forest)
        invariant done + RubyLedger(forest[i..]) == RubyLedger(forest)
      {
        RubyStep(forest, i, nodes, done);
        match forest[i] {
          case Leaf(text) => nodes := nodes + [text];
          case Elem(_, _, children) =>
            if !IsReading(forest[i]) {
              var inner := Walk(children);
              nodes := nodes + inner;
            }
        }
        done := done + RubyLedgerIn(forest[i]);
      }
    }

    method RecordReadings(forest: seq<Node>)
      modifies this`ledger
      ensures ledger == old(ledger) + RubyReadings(forest)
    {
      ghost var done: seq<Entry> := [];
      for i := 0 to |forest|
        invariant ledger == old(ledger) + done
        invariant done + RubyReadings(forest[i..]) == RubyReadings(forest)
      {
        ReadingsStep(forest, i, done);
        ghost var before := ledger;
        if forest[i].Elem? && IsReading(forest[i]) {
          Record(forest[i].children, RubyAnnotation);
        }
        assert ledger == before + ReadingsIn(forest[i]);
        done := done + ReadingsIn(forest[i]);
      }
    }

    method ExtractBlock(children: seq<Node>)
      modifies this
      ensures ledger == old(ledger) + BlockLedger(children)
      ensures passages == old(passages) + SpellEach(BlockPassage(children))
    {
      var nodes := Walk(children);
      var sourceText := Spell(nodes);
      if Blank(sourceText) {
        ledger := ledger + Mark(nodes, LayoutWhitespace);
      } else {
        ledger := ledger + Mark(nodes, Source);
        passages := passages + [sourceText];
      }
    }

    method Visit(forest: seq<Node>)
      modifies this
      ensures ledger == old(ledger) + VisitLedger(forest)
      ensures passages == old(passages) + SpellEach(VisitPassages(forest))
    {
      ghost var done: seq<Entry> := [];
      ghost var blocks: seq<seq<TextNode>> := [];
      for i := 0 to |forest|
        invariant ledger == old(ledger) + done && passages == old(passages) + SpellEach(blocks)
        invariant done + VisitLedger(forest[i..]) == VisitLedger(forest)
        invariant blocks + VisitPassages(forest[i..]) == VisitPassages(forest)
      {
        VisitStep(forest, i, done, blocks);
        SpellEachAppend(blocks, PassagesIn(forest[i]));
        ghost var ledger0, passages0 := ledger, passages;
        VisitNode(forest[i]);
        assert ledger == ledger0 + VisitIn(forest[i]) && passages == passages0 + SpellEach(PassagesIn(forest[i]));
        done := done + VisitIn(forest[i]);
        blocks := blocks + PassagesIn(forest[i]);
      }
    }

    method VisitNode(child: Node)
      modifies this
      ensures ledger == old(ledger) + VisitIn(child)
      ensures passages == old(passages) + SpellEach(PassagesIn(child))
    {
      if child.Elem? {
        if IsPassageElement(child) {
          ExtractBlock(child.children);
        }
        Visit(child.children);
        SpellEachAppend(if IsPassageElement(child) then BlockPassage(child.children) else [], VisitPassages(child.children));
      }
    }

    /** `captureSpecial`: adds the unseen nodes, or fails at one that is not blank and not markup. */
    method CaptureSpecial(forest: seq<Node>, markup: bool, seen: set<TextNode>) returns (ok: bool, after: set<TextNode>)
      requires DistinctNodes(TextsOf(forest))
      modifies this`ledger
      ensures ok <==> !Uncapturable(forest, seen, markup)
      ensures ok ==> ledger == old(ledger) + Captured(forest, seen, markup)
      ensures ok ==> after == seen + SetOf(TextsOf(forest))
    {
      after := seen;
      ghost var done: seq<Entry> := [];
      ghost var texts: seq<TextNode> := [];
      for i := 0 to |forest|
        invariant ledger == old(ledger) + done && after == seen + SetOf(texts)
        invariant texts + TextsOf(forest[i..]) == TextsOf(forest)
        invariant done + Captured(forest[i..], seen, markup) == Captured(forest, seen, markup)
        invariant Uncapturable(forest, seen, markup) == Uncapturable(forest[i..], seen, markup)
      {
        CaptureStep(forest, i, seen, markup, done, texts);
        DistinctSplits(texts + TextsIn(forest[i]), TextsOf(forest[i + 1..]));
        DistinctSplits(texts, TextsIn(forest[i]));
        CaptureApart(forest[i], seen, after, markup);
        assert SetOf(texts + TextsIn(forest[i])) == SetOf(texts) + SetOf(TextsIn(forest[i]));
        ok, after := CaptureNode(forest[i], markup, after);
        if !ok { return; }
        done := done + CapturedIn(forest[i], seen, markup);
        texts := texts + TextsIn(forest[i]);
      }
      ok := true;
    }

    method CaptureNode(child: Node, markup: bool, seen: set<TextNode>) returns (ok: bool, after: set<TextNode>)
      requires DistinctNodes(TextsIn(child))
      modifies this`ledger
      ensures ok <==> !Uncapturable([child], seen, markup)
      ensures ok ==> ledger == old(ledger) + CapturedIn(child, seen, markup)
      ensures ok ==> after == seen + SetOf(TextsIn(child))
    {
      match child
      case Leaf(text) =>
        ok, after := true, seen;
        if text !in seen {
          if !markup && !Blank(text.content) { return false, seen; }
          ledger := ledger + [Entry(text, if markup then NonStoryMarkup else LayoutWhitespace)];
          after := seen + {text};
        }
      case Elem(_, _, children) =>
        ok, after := CaptureSpecial(children, markup || IsMarkup(child), seen);
    }

    /** `indexTextNodes`: each text node gets the number of nodes before it. */
    method IndexTextNodes(forest: seq<Node>, order: map<TextNode, nat>, ghost before: seq<TextNode>)
      returns (textOrder: map<TextNode, nat>)
      requires DistinctNodes(before + TextsOf(forest)) && order == Positions(before)
      ensures textOrder == Positions(before + TextsOf(forest))
    {
      textOrder := order;
      ghost var texts := before;
      assert forest[0..] == forest;
      for i := 0 to |forest|
        invariant texts + TextsOf(forest[i..]) == before + TextsOf(forest)
        invariant textOrder == Positions(texts)
      {
        IndexStep(forest, i, texts);
        match forest[i] {
          case Leaf(text) => textOrder := textOrder[text := |textOrder|];
          case Elem(_, _, children) => textOrder := IndexTextNodes(children, textOrder, texts);
        }
        texts := texts + TextsIn(forest[i]);
      }
      assert forest[|forest|..] == [] && texts + [] == texts;
    }

    method ExtractDocument(body: seq<Node>) returns (r: Result<Extraction, ExtractionError>)
      requires DistinctNodes(TextsOf(body)) && ledger == [] && passages == []
      modifies this
      ensures r == Extracted(body)
    {
      assert [] + TextsOf(body) == TextsOf(body);
      var textOrder := IndexTextNodes(body, map[], []);
      if !OrderIsKept(body) { return Err(ReordersParentText); }
      Visit(body);
      assert ledger == VisitLedger(body) && passages == SpellEach(VisitPassages(body));
      var captured, _ := CaptureSpecial(body, false, SeenBy(ledger));
      if !captured { return Err(NoPassageRoot); }
      ledger := SortLedger(ledger, textOrder);
      return Ok(Extraction(ledger, passages));
    }
  }

  function SetOf(nodes: seq<TextNode>): set<TextNode> {
    set t | t in nodes
  }

  lemma {:induction false} CaptureAgrees(forest: seq<Node>, s1: set<TextNode>, s2: set<TextNode>, markup: bool)
    requires forall t | t in TextsOf(forest) :: t in s1 <==> t in s2
    ensures Captured(forest, s1, markup) == Captured(forest, s2, markup)
    ensures Uncapturable(forest, s1, markup) == Uncapturable(forest, s2, markup)
  {
    if forest != [] {
      TextsMembers(forest);
      if forest[0].Elem? {
        CaptureAgrees(forest[0].children, s1, s2, markup || IsMarkup(forest[0]));
      }
      CaptureAgrees(forest[1..], s1, s2, markup);
    }
  }

  /** Text taken before a node changes nothing for that node. */
  lemma CaptureApart(node: Node, seen: set<TextNode>, after: set<TextNode>, markup: bool)
    requires forall t | t in TextsIn(node) :: t in seen <==> t in after
    ensures CapturedIn(node, after, markup) == CapturedIn(node, seen, markup)
    ensures Uncapturable([node], after, markup) == Uncapturable([node], seen, markup)
  {
    assert [node][1..] == [] && TextsOf([node]) == TextsIn(node);
    CaptureAgrees([node], after, seen, markup);
    assert Captured([node], after, markup) == CapturedIn(node, after, markup);
    assert Captured([node], seen, markup) == CapturedIn(node, seen, markup);
  }

  /** One step of the capture: the part for one node, then the captures of the later ones. */
  lemma CaptureStep(forest: seq<Node>, i: nat, seen: set<TextNode>, markup: bool, done: seq<Entry>, texts: seq<TextNode>)
    requires i < |forest|
    ensures texts + TextsOf(forest[i..]) == texts + TextsIn(forest[i]) + TextsOf(forest[i + 1..])
    ensures done + Captured(forest[i..], seen, markup)
         == done + CapturedIn(forest[i], seen, markup) + Captured(forest[i + 1..], seen, markup)
    ensures Uncapturable(forest[i..], seen, markup)
       <==> Uncapturable([forest[i]], seen, markup) || Uncapturable(forest[i + 1..], seen, markup)
  {
    assert forest[i..][1..] == forest[i + 1..] && [forest[i]][1..] == [];
  }

  lemma {:induction false} PositionsSize(nodes: seq<TextNode>)
    requires DistinctNodes(nodes)
    ensures |Positions(nodes)| == |nodes|
  {
    if nodes != [] {
      var before, last := nodes[..|nodes| - 1], nodes[|nodes| - 1];
      PositionsSize(before);
      PositionsSnoc(before, last);
      assert before + [last] == nodes;
    }
  }

  lemma PositionsSnoc(before: seq<TextNode>, last: TextNode)
    requires last !in before
    ensures Positions(before + [last]) == Positions(before)[last := |before|]
    ensures last !in Positions(before)
  {
    var nodes := before + [last];
    forall i | 0 <= i < |before| ensures nodes[i] == before[i] && nodes[..i] == before[..i] {
    }
    assert nodes[..|before|] == before;
  }

  lemma IndexStep(forest: seq<Node>, i: nat, texts: seq<TextNode>)
    requires i < |forest| && DistinctNodes(texts + TextsOf(forest[i..]))
    ensures texts + TextsOf(forest[i..]) == texts + TextsIn(forest[i]) + TextsOf(forest[i + 1..])
    ensures DistinctNodes(texts + TextsIn(forest[i]))
    ensures forest[i].Leaf? ==>
              Positions(texts + TextsIn(forest[i])) == Positions(texts)[forest[i].text := |Positions(texts)|]
  {
    assert forest[i..][1..] == forest[i + 1..];
    assert texts + TextsOf(forest[i..]) == (texts + TextsIn(forest[i])) + TextsOf(forest[i + 1..]);
    DistinctSplits(texts + TextsIn(forest[i]), TextsOf(forest[i + 1..]));
    DistinctSplits(texts, TextsIn(forest[i]));
    PositionsSize(texts);
    if forest[i].Leaf? {
      assert forest[i].text in TextsIn(forest[i]);
      PositionsSnoc(texts, forest[i].text);
    }
  }

  // ---------------------------------------------------------------- the reference: roles by context

  /** What surrounds a text node decides its role. */
  datatype Context = Outside | InBlock(own: Role) | InRuby(own: Role) | InMarkup | InReading

  function RoleIn(context: Context): Role {
    match context
    case Outside => LayoutWhitespace
    case InBlock(own) => own
    case InRuby(own) => own
    case InMarkup => NonStoryMarkup
    case InReading => RubyAnnotation
  }

  /** The context inside an element. Readings outside ruby belong to no passage. */
  function Inside(node: Node, context: Context): Context
    requires node.Elem?
  {
    match context
    case Outside =>
      if IsPassageElement(node) then InBlock(BlockRole(OwnNodes(node.children)))
      else if IsMarkup(node) then InMarkup
      else Outside
    case InBlock(own) =>
      if IsPassageElement(node) then InBlock(BlockRole(OwnNodes(node.children)))
      else if IsMarkup(node) then InMarkup
      else if IsReading(node) then Outside
      else if node.name.Ruby? then InRuby(own)
      else context
    case InRuby(own) => if IsReading(node) then InReading else InBlock(own)
    case InMarkup => InMarkup
    case InReading => InReading
  }

  /** Every text node once, in document order, with its role. */
  function Classify(forest: seq<Node>, context: Context): seq<Entry> {
    if forest == [] then [] else ClassifyIn(forest[0], context) + Classify(forest[1..], context)
  }

  function ClassifyIn(node: Node, context: Context): seq<Entry> {
    match node
    case Leaf(text) => [Entry(text, RoleIn(context))]
    case Elem(_, _, children) => Classify(children, Inside(node, context))
  }

  /** Some text outside every passage and all markup is not blank. */
  predicate Orphaned(forest: seq<Node>, context: Context) {
    forest != [] && (
      || (match forest[0]
          case Leaf(text) => context.Outside? && !Blank(text.content)
          case Elem(_, _, children) => Orphaned(children, Inside(forest[0], context)))
      || Orphaned(forest[1..], context))
  }

  /**
   * The markup the extractor is written for: no passage element inside ruby, readings, scripts or
   * styles, none of the last three is a page break, and ruby has no script or style child.
   */
  predicate Clean(forest: seq<Node>, plain: bool) {
    forest == [] || (
      && Clean(forest[1..], plain)
      && (forest[0].Elem? ==>
            && (!plain || IsMarkup(forest[0]) || IsReading(forest[0]) ==> !IsPassageElement(forest[0]))
            && (forest[0].name.Ruby? ==> NoMarkupChild(forest[0].children))
            && Clean(forest[0].children, plain && !IsMarkup(forest[0]) && !IsReading(forest[0]) && !forest[0].name.Ruby?)))
  }

  predicate NoMarkupChild(children: seq<Node>) {
    forall i | 0 <= i < |children| && children[i].Elem? :: !IsMarkup(children[i])
  }

  lemma NodesAppend(a: seq<Entry>, b: seq<Entry>)
    ensures NodesOf(a + b) == NodesOf(a) + NodesOf(b)
  {
  }

  lemma {:induction false} ClassifyNodes(forest: seq<Node>, context: Context)
    ensures NodesOf(Classify(forest, context)) == TextsOf(forest)
  {
    if forest != [] {
      if forest[0].Elem? {
        ClassifyNodes(forest[0].children, Inside(forest[0], context));
      }
      assert NodesOf(ClassifyIn(forest[0], context)) == TextsIn(forest[0]);
      ClassifyNodes(forest[1..], context);
      NodesAppend(ClassifyIn(forest[0], context), Classify(forest[1..], context));
    }
  }

  // ---------------------------------------------------------------- the passes split the reference

  /** Entries left to `captureSpecial`: text outside passages, and what sits in unclaimed readings. */
  function Left(forest: seq<Node>, context: Context): seq<Entry> {
    if forest == [] then [] else LeftIn(forest[0], context) + Left(forest[1..], context)
  }

  function LeftIn(node: Node, context: Context): seq<Entry> {
    match node
    case Leaf(text) => if context.Outside? then [Entry(text, LayoutWhitespace)] else []
    case Elem(_, _, children) =>
      if Inside(node, context).InMarkup? then
        (if context.Outside? then Mark(TextsOf(children), NonStoryMarkup) else [])
      else Left(children, Inside(node, context))
  }

  /** Entries pushed by the pass that runs in this context. */
  function Recorded(forest: seq<Node>, context: Context): seq<Entry> {
    match context
    case Outside => []
    case InBlock(own) => WalkLedger(forest) + Mark(WalkSource(forest), own)
    case InRuby(own) => RubyLedger(forest) + RubyReadings(forest) + Mark(RubySource(forest), own)
    case InMarkup => Mark(TextsOf(forest), NonStoryMarkup)
    case InReading => Mark(TextsOf(forest), RubyAnnotation)
  }

  lemma {:induction false} NothingToVisit(forest: seq<Node>)
    requires Clean(forest, false)
    ensures VisitLedger(forest) == [] && VisitPassages(forest) == [] && !HasNestedRoot(forest)
  {
    if forest != [] {
      if forest[0].Elem? {
        NothingToVisit(forest[0].children);
      }
      NothingToVisit(forest[1..]);
    }
  }

  lemma {:induction false} OwnIsWalked(forest: seq<Node>, plain: bool)
    requires Clean(forest, plain)
    ensures WalkSource(forest) == OwnNodes(forest)
    ensures NoMarkupChild(forest) && !plain ==> RubySource(forest) == OwnNodes(forest)
  {
    if forest != [] {
      assert NoMarkupChild(forest) ==> NoMarkupChild(forest[1..]);
      if forest[0].Elem? {
        var node := forest[0];
        OwnIsWalked(node.children, plain && !IsMarkup(node) && !IsReading(node) && !node.name.Ruby?);
      }
      OwnIsWalked(forest[1..], plain);
    }
  }

  function RecordedIn(node: Node, context: Context): seq<Entry> {
    match context
    case Outside => []
    case InBlock(own) => LedgerIn(node) + Mark(SourceIn(node), own)
    case InRuby(own) => RubyLedgerIn(node) + ReadingsIn(node) + Mark(RubySourceIn(node), own)
    case InMarkup => Mark(TextsIn(node), NonStoryMarkup)
    case InReading => Mark(TextsIn(node), RubyAnnotation)
  }

  lemma MarkAppend(a: seq<TextNode>, b: seq<TextNode>, role: Role)
    ensures Mark(a + b, role) == Mark(a, role) + Mark(b, role)
  {
  }

  lemma RecordedSplits(forest: seq<Node>, context: Context)
    requires forest != []
    ensures multiset(Recorded(forest, context))
         == multiset(RecordedIn(forest[0], context)) + multiset(Recorded(forest[1..], context))
  {
    match context
    case Outside =>
    case InBlock(own) => MarkAppend(SourceIn(forest[0]), WalkSource(forest[1..]), own);
    case InRuby(own) => MarkAppend(RubySourceIn(forest[0]), RubySource(forest[1..]), own);
    case InMarkup => MarkAppend(TextsIn(forest[0]), TextsOf(forest[1..]), NonStoryMarkup);
    case InReading => MarkAppend(TextsIn(forest[0]), TextsOf(forest[1..]), RubyAnnotation);
  }

  lemma {:induction false} UniformContext(forest: seq<Node>, context: Context)
    requires context.InMarkup? || context.InReading?
    ensures Classify(forest, context) == Mark(TextsOf(forest), RoleIn(context)) && Left(forest, context) == []
  {
    if forest != [] {
      if forest[0].Elem? {
        UniformContext(forest[0].children, context);
      }
      UniformContext(forest[1..], context);
      MarkAppend(TextsIn(forest[0]), TextsOf(forest[1..]), RoleIn(context));
    }
  }

  predicate Suits(forest: seq<Node>, plain: bool, context: Context) {
    && Clean(forest, plain)
    && (context.InRuby? ==> !plain && NoMarkupChild(forest))
    && (context.InMarkup? || context.InReading? ==> !plain)
  }

  function PlainInside(node: Node, plain: bool): bool
    requires node.Elem?
  {
    plain && !IsMarkup(node) && !IsReading(node) && !node.name.Ruby?
  }

  lemma SuitsInside(forest: seq<Node>, plain: bool, context: Context)
    requires Suits(forest, plain, context) && forest != []
    ensures Suits(forest[1..], plain, context)
    ensures forest[0].Elem? ==> Suits(forest[0].children, PlainInside(forest[0], plain), Inside(forest[0], context))
  {
    assert context.InRuby? ==> forest[0].Elem? ==> !IsMarkup(forest[0]);
  }

  /** An element that is neither a passage nor unclaimed markup passes its children's entries on. */
  lemma PassesOn(node: Node, plain: bool, context: Context)
    requires node.Elem? && Suits([node], plain, context) && !IsPassageElement(node)
    requires !(context.Outside? && IsMarkup(node))
    ensures VisitIn(node) == VisitLedger(node.children)
    ensures RecordedIn(node, context) == Recorded(node.children, Inside(node, context))
    ensures LeftIn(node, context) == Left(node.children, Inside(node, context))
  {
    match context
    case Outside =>
    case InBlock(own) => PassesOnInBlock(node, own);
    case InRuby(own) =>
      SuitsInside([node], plain, context);
      PassesOnInRuby(node, own);
    case InMarkup => UniformContext(node.children, InMarkup);
    case InReading => UniformContext(node.children, InReading);
  }

  lemma PassesOnInBlock(node: Node, own: Role)
    requires node.Elem? && !IsPassageElement(node)
    ensures RecordedIn(node, InBlock(own)) == Recorded(node.children, Inside(node, InBlock(own)))
    ensures LeftIn(node, InBlock(own)) == Left(node.children, Inside(node, InBlock(own)))
  {
    UniformContext(node.children, InMarkup);
    assert Mark([], own) == [];
  }

  lemma PassesOnInRuby(node: Node, own: Role)
    requires node.Elem?
    ensures RecordedIn(node, InRuby(own)) == Recorded(node.children, Inside(node, InRuby(own)))
    ensures LeftIn(node, InRuby(own)) == Left(node.children, Inside(node, InRuby(own)))
  {
    UniformContext(node.children, InReading);
    assert Mark([], own) == [];
  }

  /** A passage's own walk is recorded by the visit, not by the walk around it. */
  lemma PassageRecordsItself(node: Node, plain: bool, context: Context)
    requires node.Elem? && Suits([node], plain, context) && IsPassageElement(node)
    ensures VisitIn(node) == Recorded(node.children, Inside(node, context)) + VisitLedger(node.children)
    ensures RecordedIn(node, context) == [] && LeftIn(node, context) == Left(node.children, Inside(node, context))
  {
    OwnIsWalked(node.children, PlainInside(node, plain));
    if context.InBlock? {
      assert Mark([], context.own) == [];
    }
  }

  lemma PartitionElement(node: Node, plain: bool, context: Context)
    requires node.Elem? && Suits([node], plain, context) && SplitsInto(node.children, Inside(node, context))
    ensures multiset(ClassifyIn(node, context))
         == multiset(VisitIn(node)) + multiset(RecordedIn(node, context)) + multiset(LeftIn(node, context))
  {
    if IsPassageElement(node) {
      PartitionPassage(node, plain, context);
    } else if context.Outside? && IsMarkup(node) {
      PartitionMarkup(node, plain);
    } else {
      PassesOn(node, plain, context);
    }
  }

  lemma PartitionPassage(node: Node, plain: bool, context: Context)
    requires node.Elem? && Suits([node], plain, context) && SplitsInto(node.children, Inside(node, context))
    requires IsPassageElement(node)
    ensures multiset(ClassifyIn(node, context))
         == multiset(VisitIn(node)) + multiset(RecordedIn(node, context)) + multiset(LeftIn(node, context))
  {
    PassageRecordsItself(node, plain, context);
  }

  /** Markup outside every passage is all left over. */
  lemma PartitionMarkup(node: Node, plain: bool)
    requires node.Elem? && Suits([node], plain, Outside) && IsMarkup(node) && !IsPassageElement(node)
    ensures multiset(ClassifyIn(node, Outside))
         == multiset(VisitIn(node)) + multiset(RecordedIn(node, Outside)) + multiset(LeftIn(node, Outside))
  {
    UniformContext(node.children, InMarkup);
    NothingToVisit(node.children);
    assert VisitIn(node) == [] && RecordedIn(node, Outside) == [];
  }

  predicate SplitsInto(forest: seq<Node>, context: Context) {
    multiset(Classify(forest, context))
    == multiset(VisitLedger(forest)) + multiset(Recorded(forest, context)) + multiset(Left(forest, context))
  }

  /** The visit, the pass around it and what is left over record every text node exactly once. */
  lemma {:induction false} Partition(forest: seq<Node>, plain: bool, context: Context)
    requires Suits(forest, plain, context)
    ensures SplitsInto(forest, context)
  {
    if forest == [] {
      assert Recorded(forest, context) == [];
    } else {
      SuitsInside(forest, plain, context);
      if forest[0].Elem? {
        Partition(forest[0].children, PlainInside(forest[0], plain), Inside(forest[0], context));
        PartitionElement(forest[0], plain, context);
      } else {
        PartitionLeaf(forest[0], context);
      }
      Partition(forest[1..], plain, context);
      PartitionStep(forest, context);
    }
  }

  lemma PartitionLeaf(node: Node, context: Context)
    requires node.Leaf?
    ensures multiset(ClassifyIn(node, context))
         == multiset(VisitIn(node)) + multiset(RecordedIn(node, context)) + multiset(LeftIn(node, context))
  {
    match context
    case Outside =>
    case InBlock(own) => assert RecordedIn(node, context) == [Entry(node.text, own)];
    case InRuby(own) => assert RecordedIn(node, context) == [Entry(node.text, own)];
    case InMarkup =>
    case InReading =>
  }

  lemma PartitionStep(forest: seq<Node>, context: Context)
    requires forest != [] && SplitsInto(forest[1..], context)
    requires multiset(ClassifyIn(forest[0], context)) ==
             multiset(VisitIn(forest[0])) + multiset(RecordedIn(forest[0], context)) + multiset(LeftIn(forest[0], context))
    ensures SplitsInto(forest, context)
  {
    RecordedSplits(forest, context);
  }

  // ---------------------------------------------------------------- capturing what is left

  ghost predicate DistinctNodes(nodes: seq<TextNode>) {
    forall i, j | 0 <= i < j < |nodes| :: nodes[i] != nodes[j]
  }

  lemma DistinctSplits(a: seq<TextNode>, b: seq<TextNode>)
    requires DistinctNodes(a + b)
    ensures DistinctNodes(a) && DistinctNodes(b) && forall t | t in a :: t !in b
  {
    assert forall i | 0 <= i < |a| :: (a + b)[i] == a[i];
    assert forall i | 0 <= i < |b| :: (a + b)[|a| + i] == b[i];
  }

  lemma TextsMembers(forest: seq<Node>)
    requires forest != []
    ensures forall t :: t in TextsOf(forest) <==> t in TextsIn(forest[0]) || t in TextsOf(forest[1..])
  {
  }

  lemma MarkNodes(nodes: seq<TextNode>, role: Role)
    ensures NodesOf(Mark(nodes, role)) == nodes
  {
  }

  lemma {:induction false} LeftWithin(forest: seq<Node>, context: Context)
    ensures forall t | t in NodesOf(Left(forest, context)) :: t in TextsOf(forest)
  {
    if forest != [] {
      TextsMembers(forest);
      if forest[0].Elem? {
        MarkNodes(TextsOf(forest[0].children), NonStoryMarkup);
        LeftWithin(forest[0].children, Inside(forest[0], context));
      }
      LeftWithin(forest[1..], context);
      assert NodesOf(Left(forest, context)) == NodesOf(LeftIn(forest[0], context)) + NodesOf(Left(forest[1..], context));
    }
  }

  lemma {:induction false} NoneSeen(forest: seq<Node>, seen: set<TextNode>)
    requires forall t | t in TextsOf(forest) :: t !in seen
    ensures Captured(forest, seen, true) == Mark(TextsOf(forest), NonStoryMarkup) && !Uncapturable(forest, seen, true)
  {
    if forest != [] {
      TextsMembers(forest);
      if forest[0].Elem? {
        NoneSeen(forest[0].children, seen);
      }
      NoneSeen(forest[1..], seen);
      MarkAppend(TextsIn(forest[0]), TextsOf(forest[1..]), NonStoryMarkup);
    }
  }

  lemma {:induction false} AllSeen(forest: seq<Node>, seen: set<TextNode>, markup: bool)
    requires forall t | t in TextsOf(forest) :: t in seen
    ensures Captured(forest, seen, markup) == [] && !Uncapturable(forest, seen, markup)
  {
    if forest != [] {
      TextsMembers(forest);
      if forest[0].Elem? {
        AllSeen(forest[0].children, seen, markup || IsMarkup(forest[0]));
      }
      AllSeen(forest[1..], seen, markup);
    }
  }

  lemma {:induction false} NeverOrphaned(forest: seq<Node>, context: Context)
    requires context.InMarkup? || context.InReading?
    ensures !Orphaned(forest, context)
  {
    if forest != [] {
      if forest[0].Elem? {
        NeverOrphaned(forest[0].children, context);
      }
      NeverOrphaned(forest[1..], context);
    }
  }

  /** The seen nodes are exactly those not left over. */
  predicate SeenIsRest(forest: seq<Node>, context: Context, seen: set<TextNode>) {
    forall t | t in TextsOf(forest) :: t in seen <==> t !in NodesOf(Left(forest, context))
  }

  lemma SeenIsRestSplits(forest: seq<Node>, context: Context, seen: set<TextNode>)
    requires forest != [] && DistinctNodes(TextsOf(forest)) && SeenIsRest(forest, context, seen)
    ensures DistinctNodes(TextsIn(forest[0])) && DistinctNodes(TextsOf(forest[1..]))
    ensures SeenIsRest(forest[1..], context, seen)
    ensures forall t | t in TextsIn(forest[0]) :: t in seen <==> t !in NodesOf(LeftIn(forest[0], context))
  {
    DistinctSplits(TextsIn(forest[0]), TextsOf(forest[1..]));
    assert NodesOf(Left(forest, context)) == NodesOf(LeftIn(forest[0], context)) + NodesOf(Left(forest[1..], context));
    LeftWithin(forest[1..], context);
    LeftWithin([forest[0]], context);
    assert Left([forest[0]], context) == LeftIn(forest[0], context);
    assert TextsOf([forest[0]]) == TextsIn(forest[0]);
  }

  lemma {:induction false} CapturedIsLeft(forest: seq<Node>, plain: bool, context: Context, seen: set<TextNode>)
    requires Suits(forest, plain, context) && DistinctNodes(TextsOf(forest)) && SeenIsRest(forest, context, seen)
    requires !context.InMarkup? && !context.InReading?
    ensures Captured(forest, seen, false) == Left(forest, context)
    ensures Uncapturable(forest, seen, false) <==> Orphaned(forest, context)
  {
    if forest != [] {
      var node := forest[0];
      SuitsInside(forest, plain, context);
      SeenIsRestSplits(forest, context, seen);
      if node.Elem? {
        var inner := Inside(node, context);
        if inner.InMarkup? || inner.InReading? {
          UniformCapture(node, context, seen);
        } else {
          assert !IsMarkup(node);
          CapturedIsLeft(node.children, PlainInside(node, plain), inner, seen);
        }
      } else {
        assert node.text in TextsIn(node);
        assert NodesOf(LeftIn(node, context)) == if context.Outside? then [node.text] else [];
      }
      CapturedIsLeft(forest[1..], plain, context, seen);
    }
  }

  lemma UniformCapture(node: Node, context: Context, seen: set<TextNode>)
    requires node.Elem? && (Inside(node, context).InMarkup? || Inside(node, context).InReading?)
    requires !context.InMarkup? && !context.InReading?
    requires forall t | t in TextsIn(node) :: t in seen <==> t !in NodesOf(LeftIn(node, context))
    ensures CapturedIn(node, seen, false) == LeftIn(node, context)
    ensures !Uncapturable(node.children, seen, IsMarkup(node)) && !Orphaned(node.children, Inside(node, context))
  {
    var inner := Inside(node, context);
    NeverOrphaned(node.children, inner);
    UniformContext(node.children, inner);
    if context.Outside? {
      MarkNodes(TextsOf(node.children), NonStoryMarkup);
      NoneSeen(node.children, seen);
    } else {
      AllSeen(node.children, seen, IsMarkup(node));
    }
  }

  lemma {:induction false} DistinctOnce(entries: seq<Entry>, e: Entry)
    requires DistinctNodes(NodesOf(entries))
    ensures multiset(entries)[e] <= 1
  {
    if entries != [] {
      var rest := entries[1..];
      assert entries == [entries[0]] + rest;
      assert NodesOf(entries) == [entries[0].node] + NodesOf(rest);
      DistinctSplits([entries[0].node], NodesOf(rest));
      DistinctOnce(rest, e);
      assert entries[0].node !in NodesOf(rest);
      assert forall i | 0 <= i < |rest| :: NodesOf(rest)[i] == rest[i].node;
      assert entries[0] !in rest;
      assert multiset(entries) == multiset{entries[0]} + multiset(rest);
    }
  }

  lemma NodeOnce(entries: seq<Entry>, e: Entry, f: Entry)
    requires DistinctNodes(NodesOf(entries)) && e in entries && f in entries && e.node == f.node
    ensures e == f
  {
    var i :| 0 <= i < |entries| && entries[i] == e;
    var j :| 0 <= j < |entries| && entries[j] == f;
    assert NodesOf(entries)[i] == NodesOf(entries)[j];
  }

  lemma NodeInPart(whole: seq<Entry>, part: seq<Entry>, e: Entry)
    requires DistinctNodes(NodesOf(whole)) && e in whole && forall f | f in part :: f in whole
    ensures e.node in SeenBy(part) <==> e in part
    ensures e.node in NodesOf(part) <==> e in part
  {
    forall f | f in part && f.node == e.node ensures f == e {
      NodeOnce(whole, e, f);
    }
    if e in part {
      var i :| 0 <= i < |part| && part[i] == e;
      assert NodesOf(part)[i] == e.node;
    }
  }

  /** When two parts make up entries with distinct nodes, each node is in exactly one part. */
  lemma TwoParts(whole: seq<Entry>, a: seq<Entry>, b: seq<Entry>, t: TextNode)
    requires DistinctNodes(NodesOf(whole)) && multiset(whole) == multiset(a) + multiset(b)
    requires t in NodesOf(whole)
    ensures t in SeenBy(a) <==> t !in NodesOf(b)
  {
    var k :| 0 <= k < |whole| && NodesOf(whole)[k] == t;
    var e := whole[k];
    assert e in multiset(whole);
    DistinctOnce(whole, e);
    forall f | f in a || f in b ensures f in whole {
      assert f in multiset(a) || f in multiset(b);
      assert f in multiset(whole);
    }
    NodeInPart(whole, a, e);
    NodeInPart(whole, b, e);
  }

  /** After the visit, capturing adds exactly the missing nodes, or fails on exactly the orphans. */
  lemma CaptureCompletes(body: seq<Node>)
    requires Clean(body, true) && DistinctNodes(TextsOf(body))
    ensures var seen := SeenBy(VisitLedger(body));
            && multiset(VisitLedger(body) + Captured(body, seen, false)) == multiset(Classify(body, Outside))
            && (Uncapturable(body, seen, false) <==> Orphaned(body, Outside))
  {
    var seen := SeenBy(VisitLedger(body));
    Partition(body, true, Outside);
    ClassifyNodes(body, Outside);
    forall t | t in TextsOf(body) ensures t in seen <==> t !in NodesOf(Left(body, Outside)) {
      TwoParts(Classify(body, Outside), VisitLedger(body), Left(body, Outside), t);
    }
    CapturedIsLeft(body, true, Outside, seen);
  }

  // ---------------------------------------------------------------- document order

  /** `textOrder.get(node) ?? Number.MAX_SAFE_INTEGER`. */
  function Rank(order: map<TextNode, nat>, node: TextNode): nat {
    if node in order then order[node] else 0x1F_FFFF_FFFF_FFFF
  }

  function Insert(e: Entry, entries: seq<Entry>, order: map<TextNode, nat>): seq<Entry> {
    if entries == [] || Rank(order, e.node) <= Rank(order, entries[0].node) then [e] + entries
    else [entries[0]] + Insert(e, entries[1..], order)
  }

  /** The stable sort by document order. */
  function SortLedger(entries: seq<Entry>, order: map<TextNode, nat>): seq<Entry> {
    if entries == [] then [] else Insert(entries[0], SortLedger(entries[1..], order), order)
  }

  ghost predicate Ordered(entries: seq<Entry>, order: map<TextNode, nat>) {
    forall i, j | 0 <= i < j < |entries| :: Rank(order, entries[i].node) <= Rank(order, entries[j].node)
  }

  ghost predicate StrictlyOrdered(entries: seq<Entry>, order: map<TextNode, nat>) {
    forall i, j | 0 <= i < j < |entries| :: Rank(order, entries[i].node) < Rank(order, entries[j].node)
  }

  lemma {:induction false} InsertAdds(e: Entry, entries: seq<Entry>, order: map<TextNode, nat>)
    ensures multiset(Insert(e, entries, order)) == multiset(entries) + multiset{e}
  {
    if entries != [] && !(Rank(order, e.node) <= Rank(order, entries[0].node)) {
      assert entries == [entries[0]] + entries[1..];
      InsertAdds(e, entries[1..], order);
    }
  }

  /** `entry` may stand before all of `entries`. */
  ghost predicate Leads(entry: Entry, entries: seq<Entry>, order: map<TextNode, nat>) {
    forall f | f in entries :: Rank(order, entry.node) <= Rank(order, f.node)
  }

  lemma OrderedCons(entry: Entry, entries: seq<Entry>, order: map<TextNode, nat>)
    requires Ordered(entries, order) && Leads(entry, entries, order)
    ensures Ordered([entry] + entries, order)
  {
  }

  lemma OrderedTail(entries: seq<Entry>, order: map<TextNode, nat>)
    requires Ordered(entries, order) && entries != []
    ensures Ordered(entries[1..], order) && Leads(entries[0], entries, order)
  {
  }

  lemma {:induction false} InsertKeepsOrder(e: Entry, entries: seq<Entry>, order: map<TextNode, nat>)
    requires Ordered(entries, order)
    ensures Ordered(Insert(e, entries, order), order)
  {
    if entries == [] {
    } else if Rank(order, e.node) <= Rank(order, entries[0].node) {
      OrderedTail(entries, order);
      OrderedCons(e, entries, order);
    } else {
      OrderedTail(entries, order);
      InsertKeepsOrder(e, entries[1..], order);
      InsertAdds(e, entries[1..], order);
      var inserted := Insert(e, entries[1..], order);
      forall f | f in inserted ensures Rank(order, entries[0].node) <= Rank(order, f.node) {
        assert f in multiset(inserted);
        assert f == e || f in entries;
      }
      OrderedCons(entries[0], inserted, order);
    }
  }

  lemma {:induction false} SortSorts(entries: seq<Entry>, order: map<TextNode, nat>)
    ensures Ordered(SortLedger(entries, order), order)
    ensures multiset(SortLedger(entries, order)) == multiset(entries)
  {
    if entries != [] {
      assert entries == [entries[0]] + entries[1..];
      SortSorts(entries[1..], order);
      InsertKeepsOrder(entries[0], SortLedger(entries[1..], order), order);
      InsertAdds(entries[0], SortLedger(entries[1..], order), order);
    }
  }

  lemma SameFirst(a: seq<Entry>, b: seq<Entry>, order: map<TextNode, nat>)
    requires Ordered(a, order) && StrictlyOrdered(b, order) && multiset(a) == multiset(b) && b != []
    ensures a != [] && a[0] == b[0]
  {
    assert b[0] in multiset(a);
    var i :| 0 <= i < |a| && a[i] == b[0];
    assert a[0] in multiset(b);
    var j :| 0 <= j < |b| && b[j] == a[0];
    assert Rank(order, a[0].node) <= Rank(order, a[i].node);
  }

  lemma SameTails(a: seq<Entry>, b: seq<Entry>)
    requires a != [] && b != [] && a[0] == b[0] && multiset(a) == multiset(b)
    ensures multiset(a[1..]) == multiset(b[1..])
  {
    var first, restA, restB := [a[0]], a[1..], b[1..];
    assert a == first + restA && b == first + restB;
    assert multiset(restA) == multiset(first + restA) - multiset(first);
    assert multiset(restB) == multiset(first + restB) - multiset(first);
  }

  lemma {:induction false} OneOrder(a: seq<Entry>, b: seq<Entry>, order: map<TextNode, nat>)
    requires Ordered(a, order) && StrictlyOrdered(b, order) && multiset(a) == multiset(b)
    ensures a == b
  {
    if b == [] {
      assert |multiset(a)| == 0;
    } else {
      SameFirst(a, b, order);
      SameTails(a, b);
      OrderedTail(a, order);
      OneOrder(a[1..], b[1..], order);
      assert a == [a[0]] + a[1..];
    }
  }

  /** `order` numbers the text nodes of the body from 0 in document order. */
  ghost predicate Indexes(order: map<TextNode, nat>, nodes: seq<TextNode>) {
    forall i | 0 <= i < |nodes| :: nodes[i] in order && order[nodes[i]] == i
  }

  lemma ClassifiedIsOrdered(body: seq<Node>, order: map<TextNode, nat>)
    requires Indexes(order, TextsOf(body))
    ensures StrictlyOrdered(Classify(body, Outside), order)
  {
    ClassifyNodes(body, Outside);
    var entries := Classify(body, Outside);
    forall i, j | 0 <= i < j < |entries| ensures Rank(order, entries[i].node) < Rank(order, entries[j].node) {
      assert NodesOf(entries)[i] == TextsOf(body)[i] && NodesOf(entries)[j] == TextsOf(body)[j];
    }
  }

  // ---------------------------------------------------------------- passages spell the source entries

  function SourceOf(entries: seq<Entry>): seq<TextNode> {
    if entries == [] then [] else
      (if entries[0].role.Source? then [entries[0].node] else []) + SourceOf(entries[1..])
  }

  lemma {:induction false} SourceOfAppend(a: seq<Entry>, b: seq<Entry>)
    ensures SourceOf(a + b) == SourceOf(a) + SourceOf(b)
  {
    if a == [] {
      assert a + b == b;
    } else {
      var head, rest := if a[0].role.Source? then [a[0].node] else [], a[1..];
      SourceOfAppend(rest, b);
      assert (a + b)[0] == a[0] && (a + b)[1..] == rest + b;
      assert head + (SourceOf(rest) + SourceOf(b)) == (head + SourceOf(rest)) + SourceOf(b);
    }
  }

  lemma {:induction false} SourceOfMark(nodes: seq<TextNode>, role: Role)
    ensures SourceOf(Mark(nodes, role)) == if role.Source? then nodes else []
  {
    if nodes != [] {
      assert Mark(nodes, role)[1..] == Mark(nodes[1..], role);
      SourceOfMark(nodes[1..], role);
    }
  }

  lemma {:induction false} ConcatAppend(a: seq<seq<TextNode>>, b: seq<seq<TextNode>>)
    ensures Concat(a + b) == Concat(a) + Concat(b)
  {
    if a == [] {
      assert a + b == b;
    } else {
      ConcatAppend(a[1..], b);
      assert (a + b)[1..] == a[1..] + b && (a + b)[0] == a[0];
    }
  }

  /** Inside a passage with text of its own, the source entries are that text and no passage is nested. */
  lemma {:induction false} OwnTextIsSource(forest: seq<Node>, plain: bool, context: Context)
    requires Suits(forest, plain, context) && (context == InBlock(Source) || context == InRuby(Source))
    requires !HasNestedRoot(forest)
    ensures SourceOf(Classify(forest, context)) == OwnNodes(forest) && VisitPassages(forest) == []
  {
    if forest != [] {
      var node := forest[0];
      SuitsInside(forest, plain, context);
      SourceOfAppend(ClassifyIn(node, context), Classify(forest[1..], context));
      OwnTextIsSource(forest[1..], plain, context);
      if node.Elem? {
        OwnElementIsSource(node, plain, context);
      }
    }
  }

  lemma {:induction false} OwnElementIsSource(node: Node, plain: bool, context: Context)
    requires node.Elem? && Suits([node], plain, context) && (context == InBlock(Source) || context == InRuby(Source))
    requires !HasNestedRoot([node])
    ensures SourceOf(ClassifyIn(node, context)) == OwnIn(node) && PassagesIn(node) == []
  {
    SuitsInside([node], plain, context);
    var inner := Inside(node, context);
    if inner == InBlock(Source) || inner == InRuby(Source) {
      OwnTextIsSource(node.children, PlainInside(node, plain), inner);
    } else {
      NothingToVisit(node.children);
      NoSource(node.children, PlainInside(node, plain), inner);
    }
  }

  /** Where text is not source and no passage starts, no entry is source. */
  lemma {:induction false} NoSource(forest: seq<Node>, plain: bool, context: Context)
    requires Suits(forest, plain, context) && !plain && !RoleIn(context).Source?
    ensures SourceOf(Classify(forest, context)) == []
  {
    if forest != [] {
      SuitsInside(forest, plain, context);
      SourceOfAppend(ClassifyIn(forest[0], context), Classify(forest[1..], context));
      if forest[0].Elem? {
        NoSource(forest[0].children, false, Inside(forest[0], context));
      }
      NoSource(forest[1..], plain, context);
    }
  }

  /** The source entries in document order are the passages in the order they are pushed. */
  lemma {:induction false} PassagesSpellSource(forest: seq<Node>, plain: bool, context: Context)
    requires Suits(forest, plain, context) && OrderIsKept(forest) && !RoleIn(context).Source?
    ensures SourceOf(Classify(forest, context)) == Concat(VisitPassages(forest))
  {
    if forest != [] {
      var node := forest[0];
      SuitsInside(forest, plain, context);
      SourceOfAppend(ClassifyIn(node, context), Classify(forest[1..], context));
      ConcatAppend(PassagesIn(node), VisitPassages(forest[1..]));
      if node.Elem? {
        PassagesSpellElement(node, plain, context);
      }
      PassagesSpellSource(forest[1..], plain, context);
    }
  }

  lemma {:induction false} PassagesSpellElement(node: Node, plain: bool, context: Context)
    requires node.Elem? && Suits([node], plain, context) && OrderIsKept([node]) && !RoleIn(context).Source?
    ensures SourceOf(ClassifyIn(node, context)) == Concat(PassagesIn(node))
  {
    SuitsInside([node], plain, context);
    var inner := Inside(node, context);
    OwnIsWalked(node.children, PlainInside(node, plain));
    if RoleIn(inner).Source? {
      OwnTextIsSource(node.children, PlainInside(node, plain), inner);
      assert PassagesIn(node) == [OwnNodes(node.children)];
      assert Concat([OwnNodes(node.children)]) == OwnNodes(node.children) + Concat([]);
    } else {
      PassagesSpellSource(node.children, PlainInside(node, plain), inner);
      assert PassagesIn(node) == VisitPassages(node.children);
    }
  }

  // ---------------------------------------------------------------- the whole document

  function Positions(nodes: seq<TextNode>): map<TextNode, nat> {
    map i | 0 <= i < |nodes| && nodes[i] !in nodes[..i] :: nodes[i] := i
  }

  function Extracted(body: seq<Node>): Result<Extraction, ExtractionError> {
    var seen := SeenBy(VisitLedger(body));
    if !OrderIsKept(body) then Err(ReordersParentText)
    else if Uncapturable(body, seen, false) then Err(NoPassageRoot)
    else Ok(Extraction(SortLedger(VisitLedger(body) + Captured(body, seen, false), Positions(TextsOf(body))),
                       SpellEach(VisitPassages(body))))
  }

  lemma PositionsIndex(nodes: seq<TextNode>)
    requires DistinctNodes(nodes)
    ensures Indexes(Positions(nodes), nodes)
  {
  }

  /**
   * Extraction of clean markup fails exactly when a passage's own text would be reordered or some
   * text has no passage. Otherwise the ledger holds every text node exactly once, in document order
   * and with the role its context gives it, and the passages in order are the source entries.
   */
  lemma ExtractionIsExact(body: seq<Node>)
    requires Clean(body, true) && DistinctNodes(TextsOf(body))
    ensures Extracted(body).Ok? <==> OrderIsKept(body) && !Orphaned(body, Outside)
    ensures Extracted(body).Ok? ==>
      var extraction := Extracted(body).value;
      && extraction.ledger == Classify(body, Outside)
      && NodesOf(extraction.ledger) == TextsOf(body)
      && extraction.passages == SpellEach(VisitPassages(body))
      && SourceOf(extraction.ledger) == Concat(VisitPassages(body))
      && Text.Join(extraction.passages) == Spell(SourceOf(extraction.ledger))
  {
    CaptureCompletes(body);
    ClassifyNodes(body, Outside);
    if Extracted(body).Ok? {
      var order := Positions(TextsOf(body));
      var recorded := VisitLedger(body) + Captured(body, SeenBy(VisitLedger(body)), false);
      PositionsIndex(TextsOf(body));
      SortSorts(recorded, order);
      ClassifiedIsOrdered(body, order);
      OneOrder(SortLedger(recorded, order), Classify(body, Outside), order);
      PassagesSpellSource(body, true, Outside);
      SpellConcat(VisitPassages(body));
    }
  }

  lemma {:induction false} SpellAppend(a: seq<TextNode>, b: seq<TextNode>)
    ensures Spell(a + b) == Spell(a) + Spell(b)
  {
    if a == [] {
      assert a + b == b;
    } else {
      SpellAppend(a[1..], b);
      assert (a + b)[1..] == a[1..] + b && (a + b)[0] == a[0];
      assert a[0].content + (Spell(a[1..]) + Spell(b)) == (a[0].content + Spell(a[1..])) + Spell(b);
    }
  }

  lemma {:induction false} SpellConcat(blocks: seq<seq<TextNode>>)
    ensures Text.Join(SpellEach(blocks)) == Spell(Concat(blocks))
  {
    if blocks != [] {
      SpellAppend(blocks[0], Concat(blocks[1..]));
      SpellConcat(blocks[1..]);
      assert SpellEach(blocks)[1..] == SpellEach(blocks[1..]);
    }
  }
}
