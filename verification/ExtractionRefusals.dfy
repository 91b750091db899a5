/**
 * When an extraction is refused, read off the tree (packages/epub-ingestion/src/extractor.ts).
 *
 * A place is a path of child indices. The two refusals are stated over places alone: passage text that
 * a nested passage would reorder, and text that no passage holds.
 */
module ExtractionRefusals {
  import opened Wrappers
  import opened Text
  import opened Extractor
  import opened ExtractionLimits

  type Path = seq<nat>

  /** The node at a place. */
  function At(forest: seq<Node>, path: Path): Option<Node>
    decreases |path|
  {
    if path == [] || path[0] >= |forest| then None
    else if |path| == 1 then Some(forest[path[0]])
    else if forest[path[0]].Leaf? then None
    else At(forest[path[0]].children, path[1..])
  }

  predicate IsNoSource(name: Name) {
    name in {Script, Style, Rt, Rp}
  }

  /** The places above, within the forest: where its enclosing elements are. */
  predicate Above(place: Path, path: Path) {
    0 < |place| < |path| && place == path[..|place|]
  }

  /** An element at this place that is no script, style or reading. */
  predicate SourceElementAt(forest: seq<Node>, place: Path) {
    At(forest, place).Some? && At(forest, place).value.Elem? && !IsNoSource(At(forest, place).value.name)
  }

  predicate PassageAt(forest: seq<Node>, place: Path) {
    At(forest, place).Some? && At(forest, place).value.Elem? && IsPassageElement(At(forest, place).value)
  }

  /** A passage that is no script, style or reading, and inside none. */
  ghost predicate NestedPassage(forest: seq<Node>, place: Path) {
    PassageAt(forest, place) && SourceElementAt(forest, place)
    && forall above | Above(above, place) :: SourceElementAt(forest, above)
  }

  /** Text that is not white space, enclosed by no passage, script, style or reading. */
  ghost predicate OwnText(forest: seq<Node>, place: Path) {
    && At(forest, place).Some? && At(forest, place).value.Leaf? && !Blank(At(forest, place).value.text.content)
    && forall above | Above(above, place) :: SourceElementAt(forest, above) && !PassageAt(forest, above)
  }

  /** A passage at `block` has text of its own and another passage inside. */
  ghost predicate Reorders(forest: seq<Node>, block: Path, nested: Path, text: Path) {
    && PassageAt(forest, block)
    && NestedPassage(At(forest, block).value.children, nested) && OwnText(At(forest, block).value.children, text)
  }

  // ---------------------------------------------------------------- places, one element down

  lemma AtBelow(forest: seq<Node>, i: nat, path: Path)
    requires i < |forest| && path != [] && forest[i].Elem?
    ensures At(forest, [i] + path) == At(forest[i].children, path)
  {
    assert ([i] + path)[1..] == path;
  }

  lemma AboveBelow(i: nat, place: Path, path: Path)
    requires path != [] && (place == [] || Above(place, path))
    ensures Above([i] + place, [i] + path)
  {
    assert ([i] + path)[..|place| + 1] == [i] + path[..|place|];
  }

  lemma SplitAbove(i: nat, above: Path, path: Path)
    requires path != [] && Above(above, [i] + path)
    ensures above == [i] || (above == [i] + above[1..] && Above(above[1..], path))
  {
    assert above[0] == ([i] + path)[..|above|][0] == i;
    assert above == [i] + above[1..];
    if |above| > 1 {
      assert above[1..] == ([i] + path)[..|above|][1..] == path[..|above| - 1];
    }
  }

  lemma NestedBelow(forest: seq<Node>, i: nat, path: Path)
    requires i < |forest| && path != [] && forest[i].Elem?
    ensures NestedPassage(forest, [i] + path) <==> !IsNoSource(forest[i].name) && NestedPassage(forest[i].children, path)
  {
    var children := forest[i].children;
    AtBelow(forest, i, path);
    assert At(forest, [i]) == Some(forest[i]);
    if NestedPassage(forest, [i] + path) {
      AboveBelow(i, [], path);
      assert Above([i], [i] + path) && SourceElementAt(forest, [i]);
      forall above | Above(above, path) ensures SourceElementAt(children, above) {
        AboveBelow(i, above, path);
        AtBelow(forest, i, above);
        assert SourceElementAt(forest, [i] + above);
      }
    }
    if !IsNoSource(forest[i].name) && NestedPassage(children, path) {
      forall above | Above(above, [i] + path) ensures SourceElementAt(forest, above) {
        SplitAbove(i, above, path);
        if above != [i] {
          AtBelow(forest, i, above[1..]);
        }
      }
    }
  }

  lemma TextBelow(forest: seq<Node>, i: nat, path: Path)
    requires i < |forest| && path != [] && forest[i].Elem?
    ensures OwnText(forest, [i] + path)
       <==> !IsNoSource(forest[i].name) && !IsPassageElement(forest[i]) && OwnText(forest[i].children, path)
  {
    var children := forest[i].children;
    AtBelow(forest, i, path);
    assert At(forest, [i]) == Some(forest[i]);
    if OwnText(forest, [i] + path) {
      AboveBelow(i, [], path);
      assert Above([i], [i] + path) && SourceElementAt(forest, [i]) && !PassageAt(forest, [i]);
      forall above | Above(above, path) ensures SourceElementAt(children, above) && !PassageAt(children, above) {
        AboveBelow(i, above, path);
        AtBelow(forest, i, above);
        assert SourceElementAt(forest, [i] + above) && !PassageAt(forest, [i] + above);
      }
    }
    if !IsNoSource(forest[i].name) && !IsPassageElement(forest[i]) && OwnText(children, path) {
      forall above | Above(above, [i] + path) ensures SourceElementAt(forest, above) && !PassageAt(forest, above) {
        SplitAbove(i, above, path);
        if above != [i] {
          AtBelow(forest, i, above[1..]);
        }
      }
    }
  }

  lemma Here(forest: seq<Node>, i: nat)
    requires i < |forest|
    ensures At(forest, [i]) == Some(forest[i])
    ensures NestedPassage(forest, [i]) <==> forest[i].Elem? && IsPassageElement(forest[i]) && !IsNoSource(forest[i].name)
    ensures OwnText(forest, [i]) <==> forest[i].Leaf? && !Blank(forest[i].text.content)
  {
  }

  lemma HeadAndRest(path: Path)
    requires path != []
    ensures path == [path[0]] + path[1..]
  {
  }

  // ---------------------------------------------------------------- nested passages

  lemma {:induction false} NestedRootIff(forest: seq<Node>)
    ensures HasNestedRoot(forest) <==> exists place :: NestedPassage(forest, place)
  {
    if HasNestedRoot(forest) {
      var i, place := FindNested(forest);
    }
    if exists place :: NestedPassage(forest, place) {
      var place :| NestedPassage(forest, place);
      NestedIsFound(forest, place);
    }
  }

  lemma {:induction false} FindNested(forest: seq<Node>) returns (i: nat, place: Path)
    requires HasNestedRoot(forest)
    ensures i < |forest| && place != [] && place[0] == i && NestedPassage(forest, place)
  {
    if HasNestedRoot(forest[1..]) {
      i, place := FindNested(forest[1..]);
      var node := forest[i + 1];
      assert node == forest[1..][i];
      Shifted(forest, i, place);
      i, place := i + 1, [i + 1] + place[1..];
    } else {
      var node := forest[0];
      Here(forest, 0);
      if IsPassageElement(node) {
        return 0, [0];
      }
      var j, below := FindNested(node.children);
      NestedBelow(forest, 0, below);
      return 0, [0] + below;
    }
  }

  /** Dropping the first node of a forest shifts the first index. */
  lemma Shifted(forest: seq<Node>, i: nat, place: Path)
    requires i + 1 < |forest| && place != [] && place[0] == i
    ensures NestedPassage(forest, [i + 1] + place[1..]) <==> NestedPassage(forest[1..], place)
    ensures OwnText(forest, [i + 1] + place[1..]) <==> OwnText(forest[1..], place)
  {
    var rest, below := forest[1..], place[1..];
    assert rest[i] == forest[i + 1];
    HeadAndRest(place);
    Here(forest, i + 1);
    Here(rest, i);
    if below == [] {
      assert [i + 1] + below == [i + 1] && place == [i];
    } else if forest[i + 1].Elem? {
      NestedBelow(forest, i + 1, below);
      NestedBelow(rest, i, below);
      TextBelow(forest, i + 1, below);
      TextBelow(rest, i, below);
    } else {
      assert At(forest, [i + 1] + below) == None && At(rest, place) == None;
    }
  }

  lemma {:induction false} NestedIsFound(forest: seq<Node>, place: Path)
    requires NestedPassage(forest, place)
    ensures HasNestedRoot(forest)
    decreases forest
  {
    var i, below := place[0], place[1..];
    HeadAndRest(place);
    if i > 0 {
      assert forest[1..][i - 1] == forest[i];
      Shifted(forest, i - 1, [i - 1] + below);
      assert [i - 1 + 1] + ([i - 1] + below)[1..] == place;
      NestedIsFound(forest[1..], [i - 1] + below);
    } else if below == [] {
      Here(forest, 0);
    } else {
      NestedBelow(forest, 0, below);
      NestedIsFound(forest[0].children, below);
    }
  }

  // ---------------------------------------------------------------- a passage's own text

  lemma SpellBlank(nodes: seq<TextNode>, more: seq<TextNode>)
    ensures Blank(Spell(nodes + more)) <==> Blank(Spell(nodes)) && Blank(Spell(more))
  {
    SpellAppend(nodes, more);
    BlankAppend(Spell(nodes), Spell(more));
  }

  lemma {:induction false} FindText(forest: seq<Node>) returns (i: nat, place: Path)
    requires !Blank(Spell(OwnNodes(forest)))
    ensures i < |forest| && place != [] && place[0] == i && OwnText(forest, place)
  {
    SpellBlank(OwnIn(forest[0]), OwnNodes(forest[1..]));
    if !Blank(Spell(OwnNodes(forest[1..]))) {
      i, place := FindText(forest[1..]);
      Shifted(forest, i, place);
      i, place := i + 1, [i + 1] + place[1..];
    } else {
      Here(forest, 0);
      if forest[0].Leaf? {
        SpellOne(forest[0].text);
        return 0, [0];
      }
      var j, below := FindText(forest[0].children);
      TextBelow(forest, 0, below);
      return 0, [0] + below;
    }
  }

  lemma {:induction false} TextIsFound(forest: seq<Node>, place: Path)
    requires OwnText(forest, place)
    ensures !Blank(Spell(OwnNodes(forest)))
    decreases forest
  {
    var i, below := place[0], place[1..];
    HeadAndRest(place);
    SpellBlank(OwnIn(forest[0]), OwnNodes(forest[1..]));
    if i > 0 {
      assert forest[1..][i - 1] == forest[i];
      Shifted(forest, i - 1, [i - 1] + below);
      assert [i - 1 + 1] + ([i - 1] + below)[1..] == place;
      TextIsFound(forest[1..], [i - 1] + below);
    } else if below == [] {
      Here(forest, 0);
      SpellOne(forest[0].text);
    } else {
      TextBelow(forest, 0, below);
      TextIsFound(forest[0].children, below);
    }
  }

  // ---------------------------------------------------------------- text that would be reordered

  lemma AtShifted(forest: seq<Node>, place: Path)
    requires forest != [] && place != []
    ensures At(forest, [place[0] + 1] + place[1..]) == At(forest[1..], place)
  {
    var later := [place[0] + 1] + place[1..];
    assert later[1..] == place[1..] && later[0] == place[0] + 1;
  }

  lemma {:induction false} FindReordered(forest: seq<Node>) returns (block: Path, nested: Path, text: Path)
    requires !OrderIsKept(forest)
    ensures Reorders(forest, block, nested, text)
  {
    if !OrderIsKept(forest[1..]) {
      block, nested, text := FindReordered(forest[1..]);
      AtShifted(forest, block);
      block := [block[0] + 1] + block[1..];
    } else {
      var children := forest[0].children;
      Here(forest, 0);
      if !OrderIsKept(children) {
        block, nested, text := FindReordered(children);
        AtBelow(forest, 0, block);
        block := [0] + block;
      } else {
        var i, j;
        i, nested := FindNested(children);
        j, text := FindText(children);
        block := [0];
      }
    }
  }

  lemma {:induction false} ReorderedIsFound(forest: seq<Node>, block: Path, nested: Path, text: Path)
    requires Reorders(forest, block, nested, text)
    ensures !OrderIsKept(forest)
    decreases forest
  {
    var i, below := block[0], block[1..];
    HeadAndRest(block);
    if i > 0 {
      AtShifted(forest, [i - 1] + below);
      assert [i - 1 + 1] + ([i - 1] + below)[1..] == block;
      ReorderedIsFound(forest[1..], [i - 1] + below, nested, text);
    } else if below == [] {
      Here(forest, 0);
      NestedIsFound(forest[0].children, nested);
      TextIsFound(forest[0].children, text);
    } else {
      AtBelow(forest, 0, below);
      ReorderedIsFound(forest[0].children, below, nested, text);
    }
  }

  /**
   * A body is refused for its order exactly when some passage has text of its own, that is not white
   * space, beside a passage nested in it.
   */
  lemma RefusedForOrderIff(body: seq<Node>)
    ensures Extracted(body) == Err(ReordersParentText) <==> exists block, nested, text :: Reorders(body, block, nested, text)
  {
    if !OrderIsKept(body) {
      var block, nested, text := FindReordered(body);
    }
    if exists block, nested, text :: Reorders(body, block, nested, text) {
      var block, nested, text :| Reorders(body, block, nested, text);
      ReorderedIsFound(body, block, nested, text);
    }
  }

  // ---------------------------------------------------------------- text without a passage

  /** Neither a script nor a style encloses the place. */
  predicate OutsideMarkup(forest: seq<Node>, place: Path)
    decreases |place|
  {
    place != [] && place[0] < |forest|
    && (|place| > 1 ==> forest[place[0]].Elem? && !IsMarkup(forest[place[0]]) && OutsideMarkup(forest[place[0]].children, place[1..]))
  }

  /** Whoever covers the forest records the text at the place. */
  predicate Reaches(forest: seq<Node>, cover: Cover, place: Path)
    decreases |place|
  {
    place != [] && place[0] < |forest| && !cover.Nobody?
    && (|place| > 1 ==>
          && forest[place[0]].Elem? && !(IsPassageElement(forest[place[0]]) && cover.Block?)
          && Reaches(forest[place[0]].children, Below(forest[place[0]], cover), place[1..]))
  }

  predicate TextAt(forest: seq<Node>, place: Path, t: TextNode) {
    At(forest, place) == Some(Leaf(t))
  }

  /** The walk of a passage at `block` records this text. */
  predicate RecordedFrom(forest: seq<Node>, block: Path, place: Path, t: TextNode) {
    PassageAt(forest, block)
    && var children := At(forest, block).value.children;
       TextAt(children, place, t) && Reaches(children, Block, place)
  }

  lemma CoverBagSplits(forest: seq<Node>, cover: Cover, t: TextNode)
    requires forest != []
    ensures t in CoverBag(forest, cover) <==> t in CoverBag([forest[0]], cover) || t in CoverBag(forest[1..], cover)
  {
    var node, rest := forest[0], forest[1..];
    OneNode(node);
    NodesAppend(LedgerIn(node), WalkLedger(rest));
    NodesAppend(RubyLedgerIn(node), RubyLedger(rest));
    NodesAppend(ReadingsIn(node), RubyReadings(rest));
  }

  lemma CoverBagOfNode(node: Node, cover: Cover, t: TextNode)
    requires node.Elem?
    ensures t in CoverBag([node], cover)
       <==> !cover.Nobody? && !(IsPassageElement(node) && cover.Block?) && t in CoverBag(node.children, Below(node, cover))
  {
    if IsPassageElement(node) {
      CoverBagOfPassage(node, cover);
    } else {
      CoverBagIn(node, cover);
    }
  }

  lemma CoverBagOfLeaf(node: Node, cover: Cover, t: TextNode)
    requires node.Leaf?
    ensures t in CoverBag([node], cover) <==> !cover.Nobody? && t == node.text
  {
    OneNode(node);
    assert NodesOf(LedgerIn(node)) == [] && NodesOf(RubyLedgerIn(node)) == [] && NodesOf(ReadingsIn(node)) == [];
  }

  lemma {:induction false} FindReached(forest: seq<Node>, cover: Cover, t: TextNode) returns (place: Path)
    requires t in CoverBag(forest, cover)
    ensures TextAt(forest, place, t) && Reaches(forest, cover, place)
  {
    CoverBagSplits(forest, cover, t);
    if t in CoverBag(forest[1..], cover) {
      place := FindReached(forest[1..], cover, t);
      AtShifted(forest, place);
      place := [place[0] + 1] + place[1..];
    } else {
      Here(forest, 0);
      if forest[0].Leaf? {
        CoverBagOfLeaf(forest[0], cover, t);
        return [0];
      }
      CoverBagOfNode(forest[0], cover, t);
      place := FindReached(forest[0].children, Below(forest[0], cover), t);
      AtBelow(forest, 0, place);
      place := [0] + place;
    }
  }

  lemma {:induction false} ReachedIsFound(forest: seq<Node>, cover: Cover, place: Path, t: TextNode)
    requires TextAt(forest, place, t) && Reaches(forest, cover, place)
    ensures t in CoverBag(forest, cover)
    decreases forest
  {
    var i, below := place[0], place[1..];
    HeadAndRest(place);
    CoverBagSplits(forest, cover, t);
    if i > 0 {
      var earlier := [i - 1] + below;
      AtShifted(forest, earlier);
      assert [earlier[0] + 1] + earlier[1..] == place && earlier[1..] == below;
      ReachedIsFound(forest[1..], cover, earlier, t);
    } else if below == [] {
      Here(forest, 0);
      CoverBagOfLeaf(forest[0], cover, t);
    } else {
      AtBelow(forest, 0, below);
      ReachedIsFound(forest[0].children, Below(forest[0], cover), below, t);
      CoverBagOfNode(forest[0], cover, t);
    }
  }

  lemma VisitSplits(forest: seq<Node>, t: TextNode)
    requires forest != []
    ensures t in NodesOf(VisitLedger(forest)) <==> t in NodesOf(VisitIn(forest[0])) || t in NodesOf(VisitLedger(forest[1..]))
  {
    NodesAppend(VisitIn(forest[0]), VisitLedger(forest[1..]));
  }

  lemma VisitOfNode(node: Node, t: TextNode)
    requires node.Elem?
    ensures t in NodesOf(VisitIn(node))
       <==> (IsPassageElement(node) && t in CoverBag(node.children, Block)) || t in NodesOf(VisitLedger(node.children))
  {
    var inner := VisitLedger(node.children);
    BlockBag(node.children);
    NodesAppend(BlockLedger(node.children), inner);
    assert [] + inner == inner;
    assert t in multiset(NodesOf(BlockLedger(node.children))) <==> t in NodesOf(BlockLedger(node.children));
  }

  lemma {:induction false} FindRecorded(forest: seq<Node>, t: TextNode) returns (block: Path, place: Path)
    requires t in NodesOf(VisitLedger(forest))
    ensures RecordedFrom(forest, block, place, t)
  {
    VisitSplits(forest, t);
    if t in NodesOf(VisitLedger(forest[1..])) {
      block, place := FindRecorded(forest[1..], t);
      AtShifted(forest, block);
      block := [block[0] + 1] + block[1..];
    } else {
      var children := forest[0].children;
      VisitOfNode(forest[0], t);
      Here(forest, 0);
      if IsPassageElement(forest[0]) && t in CoverBag(children, Block) {
        block := [0];
        place := FindReached(children, Block, t);
      } else {
        block, place := FindRecorded(children, t);
        AtBelow(forest, 0, block);
        block := [0] + block;
      }
    }
  }

  lemma {:induction false} RecordedIsFound(forest: seq<Node>, block: Path, place: Path, t: TextNode)
    requires RecordedFrom(forest, block, place, t)
    ensures t in NodesOf(VisitLedger(forest))
    decreases forest
  {
    var i, below := block[0], block[1..];
    HeadAndRest(block);
    VisitSplits(forest, t);
    if i > 0 {
      var earlier := [i - 1] + below;
      AtShifted(forest, earlier);
      assert [earlier[0] + 1] + earlier[1..] == block;
      RecordedIsFound(forest[1..], earlier, place, t);
    } else {
      if below == [] {
        Here(forest, 0);
        ReachedIsFound(forest[0].children, Block, place, t);
      } else {
        AtBelow(forest, 0, below);
        RecordedIsFound(forest[0].children, below, place, t);
      }
      VisitOfNode(forest[0], t);
    }
  }

  /** Text that is not white space, outside all markup, and not seen before. */
  predicate Uncaptured(forest: seq<Node>, seen: set<TextNode>, place: Path) {
    && At(forest, place).Some? && At(forest, place).value.Leaf? && OutsideMarkup(forest, place)
    && !Blank(At(forest, place).value.text.content) && At(forest, place).value.text !in seen
  }

  lemma {:induction false} NothingFailsInMarkup(forest: seq<Node>, seen: set<TextNode>)
    ensures !Uncapturable(forest, seen, true)
  {
    if forest != [] {
      if forest[0].Elem? {
        NothingFailsInMarkup(forest[0].children, seen);
      }
      NothingFailsInMarkup(forest[1..], seen);
    }
  }

  lemma {:induction false} FindUncaptured(forest: seq<Node>, seen: set<TextNode>) returns (place: Path)
    requires Uncapturable(forest, seen, false)
    ensures Uncaptured(forest, seen, place)
  {
    if Uncapturable(forest[1..], seen, false) {
      place := FindUncaptured(forest[1..], seen);
      AtShifted(forest, place);
      place := [place[0] + 1] + place[1..];
    } else {
      Here(forest, 0);
      if forest[0].Leaf? {
        return [0];
      }
      NothingFailsInMarkup(forest[0].children, seen);
      place := FindUncaptured(forest[0].children, seen);
      AtBelow(forest, 0, place);
      place := [0] + place;
    }
  }

  lemma {:induction false} UncapturedIsFound(forest: seq<Node>, seen: set<TextNode>, place: Path)
    requires Uncaptured(forest, seen, place)
    ensures Uncapturable(forest, seen, false)
    decreases forest
  {
    var i, below := place[0], place[1..];
    HeadAndRest(place);
    if i > 0 {
      var earlier := [i - 1] + below;
      AtShifted(forest, earlier);
      assert [earlier[0] + 1] + earlier[1..] == place && earlier[1..] == below;
      UncapturedIsFound(forest[1..], seen, earlier);
    } else if below == [] {
      Here(forest, 0);
    } else {
      AtBelow(forest, 0, below);
      UncapturedIsFound(forest[0].children, seen, below);
    }
  }

  /** Text that is not white space, in no script or style, and recorded by no passage. */
  ghost predicate Homeless(body: seq<Node>, place: Path) {
    && At(body, place).Some? && At(body, place).value.Leaf? && OutsideMarkup(body, place)
    && !Blank(At(body, place).value.text.content)
    && forall block, within :: !RecordedFrom(body, block, within, At(body, place).value.text)
  }

  lemma HomelessIff(body: seq<Node>, place: Path)
    ensures Homeless(body, place) <==> Uncaptured(body, SeenBy(VisitLedger(body)), place)
  {
    if At(body, place).Some? && At(body, place).value.Leaf? {
      var t := At(body, place).value.text;
      SeenAreNodes(VisitLedger(body), t);
      if t in NodesOf(VisitLedger(body)) {
        var block, within := FindRecorded(body, t);
      }
      forall block, within | RecordedFrom(body, block, within, t) ensures t in NodesOf(VisitLedger(body)) {
        RecordedIsFound(body, block, within, t);
      }
    }
  }

  /**
   * An ordered body is refused for missing a passage exactly when some text, that is not white space
   * and stands in no script or style, is recorded by no passage.
   */
  lemma RefusedForNoPassageIff(body: seq<Node>)
    ensures Extracted(body) == Err(NoPassageRoot)
       <==> (forall block, nested, text :: !Reorders(body, block, nested, text)) && exists place :: Homeless(body, place)
  {
    RefusedForOrderIff(body);
    var seen := SeenBy(VisitLedger(body));
    if Uncapturable(body, seen, false) {
      var place := FindUncaptured(body, seen);
      HomelessIff(body, place);
    }
    if exists place :: Homeless(body, place) {
      var place :| Homeless(body, place);
      HomelessIff(body, place);
      UncapturedIsFound(body, seen, place);
    }
  }
}
