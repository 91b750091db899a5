/**
 * Exactly when an extraction is exact, for markup of every shape
 * (packages/epub-ingestion/src/extractor.ts).
 *
 * Two things can go wrong in a tree that is not `Clean`: text is recorded twice, because a passage
 * starts where an enclosing pass records everything, and text is narrated out of order, because a
 * passage starts where the nested-order check does not look.
 */
module ExtractionLimits {
  import opened Wrappers
  import opened Text
  import opened Extractor

  // ---------------------------------------------------------------- text recorded twice

  /** Who records the text at some place, apart from the passages that start below it. */
  datatype Cover = Nobody | Block | RubyOfBlock | Everything

  /** The cover inside an element. */
  function Below(node: Node, cover: Cover): Cover
    requires node.Elem?
  {
    if cover.Everything? || (cover.RubyOfBlock? && IsReading(node)) then Everything
    else if IsPassageElement(node) || cover.RubyOfBlock? then Block
    else if cover.Nobody? || IsReading(node) then Nobody
    else if IsMarkup(node) then Everything
    else if node.name.Ruby? then RubyOfBlock
    else Block
  }

  /** The walk of this passage finds text. */
  predicate BearsText(node: Node)
    requires node.Elem?
  {
    BlockLedger(node.children) != []
  }

  /**
   * Some passage that bears text starts inside a script or style of a walked passage, inside a reading
   * of its ruby, or as a child of its ruby.
   */
  predicate RecordedTwice(forest: seq<Node>, cover: Cover) {
    forest != [] && (
      || RecordedTwice(forest[1..], cover)
      || (forest[0].Elem? && (
            || (IsCovered(forest[0], cover) && BearsText(forest[0]))
            || RecordedTwice(forest[0].children, Below(forest[0], cover)))))
  }

  function CoverBag(forest: seq<Node>, cover: Cover): multiset<TextNode> {
    match cover
    case Nobody => multiset{}
    case Block => multiset(NodesOf(WalkLedger(forest))) + multiset(WalkSource(forest))
    case RubyOfBlock =>
      multiset(NodesOf(RubyLedger(forest))) + multiset(NodesOf(RubyReadings(forest))) + multiset(RubySource(forest))
    case Everything => multiset(TextsOf(forest))
  }

  /** How often each text node is recorded, by the cover and by the passages that start here. */
  function Bag(forest: seq<Node>, cover: Cover): multiset<TextNode> {
    CoverBag(forest, cover) + multiset(NodesOf(VisitLedger(forest)))
  }

  ghost predicate Once(bag: multiset<TextNode>) {
    forall t :: bag[t] <= 1
  }

  lemma OneNode(node: Node)
    ensures TextsOf([node]) == TextsIn(node) && OwnNodes([node]) == OwnIn(node)
    ensures WalkSource([node]) == SourceIn(node) && WalkLedger([node]) == LedgerIn(node)
    ensures RubySource([node]) == RubySourceIn(node) && RubyLedger([node]) == RubyLedgerIn(node)
    ensures RubyReadings([node]) == ReadingsIn(node)
    ensures VisitLedger([node]) == VisitIn(node) && VisitPassages([node]) == PassagesIn(node)
  {
    assert [node][1..] == [];
  }

  lemma BagSplits(forest: seq<Node>, cover: Cover)
    requires forest != []
    ensures Bag(forest, cover) == Bag([forest[0]], cover) + Bag(forest[1..], cover)
  {
    var node, rest := forest[0], forest[1..];
    OneNode(node);
    NodesAppend(VisitIn(node), VisitLedger(rest));
    NodesAppend(LedgerIn(node), WalkLedger(rest));
    NodesAppend(RubyLedgerIn(node), RubyLedger(rest));
    NodesAppend(ReadingsIn(node), RubyReadings(rest));
  }

  lemma BlockBag(children: seq<Node>)
    ensures multiset(NodesOf(BlockLedger(children))) == CoverBag(children, Block)
    ensures BlockLedger(children) == [] <==> CoverBag(children, Block) == multiset{}
  {
    var nodes := WalkSource(children);
    MarkNodes(nodes, BlockRole(nodes));
    NodesAppend(WalkLedger(children), Mark(nodes, BlockRole(nodes)));
    assert |BlockLedger(children)| == |CoverBag(children, Block)|;
  }

  lemma CoverBagInMarkup(node: Node)
    requires node.Elem? && !IsPassageElement(node) && IsMarkup(node)
    ensures CoverBag([node], Block) == CoverBag(node.children, Everything)
  {
    OneNode(node);
    MarkNodes(TextsOf(node.children), NonStoryMarkup);
  }

  lemma CoverBagIntoRuby(node: Node)
    requires node.Elem? && !IsPassageElement(node) && node.name.Ruby?
    ensures CoverBag([node], Block) == CoverBag(node.children, RubyOfBlock)
  {
    OneNode(node);
    NodesAppend(RubyLedger(node.children), RubyReadings(node.children));
  }

  lemma CoverBagInBlock(node: Node)
    requires node.Elem? && !IsPassageElement(node)
    ensures CoverBag([node], Block) == CoverBag(node.children, Below(node, Block))
  {
    if IsMarkup(node) {
      CoverBagInMarkup(node);
    } else if node.name.Ruby? {
      CoverBagIntoRuby(node);
    } else {
      OneNode(node);
    }
  }

  lemma CoverBagInRuby(node: Node)
    requires node.Elem?
    ensures CoverBag([node], RubyOfBlock) == CoverBag(node.children, if IsReading(node) then Everything else Block)
  {
    OneNode(node);
    MarkNodes(TextsOf(node.children), RubyAnnotation);
  }

  lemma CoverBagIn(node: Node, cover: Cover)
    requires node.Elem? && !IsPassageElement(node)
    ensures CoverBag([node], cover) == CoverBag(node.children, Below(node, cover))
  {
    match cover
    case Nobody =>
    case Block => CoverBagInBlock(node);
    case RubyOfBlock => CoverBagInRuby(node);
    case Everything => OneNode(node);
  }

  /** The passage starts where its text is recorded already. */
  predicate IsCovered(node: Node, cover: Cover)
    requires node.Elem?
  {
    IsPassageElement(node) && (cover.RubyOfBlock? || cover.Everything?)
  }

  lemma CoverBagOfPassage(node: Node, cover: Cover)
    requires node.Elem? && IsPassageElement(node)
    ensures CoverBag([node], cover) == if IsCovered(node, cover) then CoverBag(node.children, Below(node, cover)) else multiset{}
  {
    OneNode(node);
    if cover.RubyOfBlock? {
      CoverBagInRuby(node);
    }
  }

  lemma BagOfPassage(node: Node)
    requires node.Elem? && IsPassageElement(node)
    ensures multiset(NodesOf(VisitLedger([node]))) == CoverBag(node.children, Block) + multiset(NodesOf(VisitLedger(node.children)))
  {
    OneNode(node);
    BlockBag(node.children);
    NodesAppend(BlockLedger(node.children), VisitLedger(node.children));
  }

  lemma NothingOfItsOwn(node: Node)
    requires node.Elem? && !IsPassageElement(node)
    ensures VisitLedger([node]) == VisitLedger(node.children)
  {
    OneNode(node);
  }

  /** What an element adds: what is recorded below it, and the walk of a passage that was covered already. */
  lemma BagOfElement(node: Node, cover: Cover)
    requires node.Elem?
    ensures Bag([node], cover) == Bag(node.children, Below(node, cover))
              + if IsCovered(node, cover) then CoverBag(node.children, Block) else multiset{}
  {
    if IsPassageElement(node) {
      CoverBagOfPassage(node, cover);
      BagOfPassage(node);
    } else {
      CoverBagIn(node, cover);
      NothingOfItsOwn(node);
    }
  }

  /** What an element adds is recorded below it, too. */
  lemma ElementBagWithin(node: Node, cover: Cover)
    requires node.Elem?
    ensures forall t | t in Bag([node], cover) :: t in Bag(node.children, Below(node, cover)) || t in Bag(node.children, Block)
  {
    BagOfElement(node, cover);
  }

  lemma LeafBagWithin(node: Node, cover: Cover)
    requires node.Leaf?
    ensures forall t | t in Bag([node], cover) :: t == node.text
  {
    OneNode(node);
    assert NodesOf(VisitIn(node)) == [] && NodesOf(LedgerIn(node)) == [] && NodesOf(ReadingsIn(node)) == [];
  }

  /** Only text of the forest is recorded. */
  lemma {:induction false} BagWithin(forest: seq<Node>, cover: Cover)
    ensures forall t | t in Bag(forest, cover) :: t in TextsOf(forest)
  {
    if forest != [] {
      var node := forest[0];
      BagSplits(forest, cover);
      TextsMembers(forest);
      BagWithin(forest[1..], cover);
      if node.Elem? {
        ElementBagWithin(node, cover);
        BagWithin(node.children, Below(node, cover));
        BagWithin(node.children, Block);
      } else {
        LeafBagWithin(node, cover);
      }
    }
  }

  /** Two bags without a common member hold each member once together when they do so each. */
  lemma OnceSplits(a: multiset<TextNode>, b: multiset<TextNode>)
    requires forall t | t in a :: t !in b
    ensures Once(a + b) <==> Once(a) && Once(b)
  {
    if Once(a + b) {
      forall t ensures a[t] <= 1 && b[t] <= 1 {
        assert (a + b)[t] <= 1;
      }
    }
    if Once(a) && Once(b) {
      forall t ensures (a + b)[t] <= 1 {
        assert a[t] <= 1 && b[t] <= 1;
      }
    }
  }

  /** Recording a member of `a` again is recording it twice. */
  lemma AgainIsTwice(a: multiset<TextNode>, again: multiset<TextNode>)
    requires forall t | t in again :: t in a
    ensures Once(a + again) <==> Once(a) && again == multiset{}
  {
    forall t | t in again ensures (a + again)[t] >= 2 {
    }
    if again == multiset{} {
      assert a + again == a;
    } else {
      var t :| t in again;
      assert (a + again)[t] >= 2;
    }
  }

  lemma SiblingsAreApart(forest: seq<Node>, cover: Cover)
    requires forest != [] && forall t | t in TextsIn(forest[0]) :: t !in TextsOf(forest[1..])
    ensures Once(Bag(forest, cover)) <==> Once(Bag([forest[0]], cover)) && Once(Bag(forest[1..], cover))
  {
    OneNode(forest[0]);
    BagSplits(forest, cover);
    BagWithin([forest[0]], cover);
    BagWithin(forest[1..], cover);
    OnceSplits(Bag([forest[0]], cover), Bag(forest[1..], cover));
  }

  /** A covered passage that bears text has it recorded again. */
  lemma CoveredTwice(node: Node, cover: Cover)
    requires node.Elem? && IsCovered(node, cover)
    ensures Once(Bag([node], cover)) <==> Once(Bag(node.children, Below(node, cover))) && !BearsText(node)
  {
    BagOfElement(node, cover);
    BlockBag(node.children);
    CoveredIsWithin(node, cover);
    AgainIsTwice(Bag(node.children, Below(node, cover)), CoverBag(node.children, Block));
  }

  lemma CoveredIsWithin(node: Node, cover: Cover)
    requires node.Elem? && IsCovered(node, cover)
    ensures forall t | t in CoverBag(node.children, Block) :: t in Bag(node.children, Below(node, cover))
  {
    BagWithin(node.children, Block);
    if Below(node, cover).Everything? {
      forall t | t in CoverBag(node.children, Block) ensures t in CoverBag(node.children, Everything) {
        assert t in Bag(node.children, Block);
      }
    }
  }

  lemma ElementOnce(node: Node, cover: Cover)
    requires node.Elem?
    ensures Once(Bag([node], cover))
       <==> Once(Bag(node.children, Below(node, cover))) && !(IsCovered(node, cover) && BearsText(node))
  {
    if IsCovered(node, cover) {
      CoveredTwice(node, cover);
    } else {
      BagOfElement(node, cover);
      assert Bag([node], cover) == Bag(node.children, Below(node, cover));
    }
  }

  /** No text node is recorded twice exactly when `RecordedTwice` finds no covered passage. */
  lemma {:induction false} OnceIff(forest: seq<Node>, cover: Cover)
    requires DistinctNodes(TextsOf(forest))
    ensures Once(Bag(forest, cover)) <==> !RecordedTwice(forest, cover)
  {
    if forest == [] {
      LeafOnceEmpty(cover);
    } else {
      var node := forest[0];
      DistinctSplits(TextsIn(node), TextsOf(forest[1..]));
      SiblingsAreApart(forest, cover);
      OnceIff(forest[1..], cover);
      if node.Elem? {
        OnceIff(node.children, Below(node, cover));
        ElementOnce(node, cover);
      } else {
        LeafOnce(node, cover);
      }
    }
  }

  lemma LeafOnceEmpty(cover: Cover)
    ensures Once(Bag([], cover))
  {
  }

  lemma OneAtMost(bag: multiset<TextNode>, t: TextNode)
    requires bag <= multiset{t}
    ensures Once(bag)
  {
    forall s ensures bag[s] <= 1 {
      assert bag[s] <= multiset{t}[s];
    }
  }

  lemma LeafOnce(node: Node, cover: Cover)
    requires node.Leaf?
    ensures Once(Bag([node], cover))
  {
    OneNode(node);
    assert NodesOf(VisitIn(node)) == [] && NodesOf(LedgerIn(node)) == [] && NodesOf(ReadingsIn(node)) == [];
    assert NodesOf(RubyLedgerIn(node)) == [] && CoverBag([node], cover) <= multiset{node.text};
    OneAtMost(Bag([node], cover), node.text);
  }

  // ---------------------------------------------------------------- document order

  function Position(nodes: seq<TextNode>, t: TextNode): nat {
    if nodes == [] || nodes[0] == t then 0 else 1 + Position(nodes[1..], t)
  }

  lemma {:induction false} PositionAppend(a: seq<TextNode>, b: seq<TextNode>, t: TextNode)
    ensures Position(a + b, t) == if t in a then Position(a, t) else |a| + Position(b, t)
    ensures t in a ==> Position(a, t) < |a|
  {
    if a == [] {
      assert a + b == b;
    } else {
      assert (a + b)[0] == a[0] && (a + b)[1..] == a[1..] + b;
      PositionAppend(a[1..], b, t);
    }
  }

  lemma {:induction false} PositionOf(nodes: seq<TextNode>, i: nat)
    requires DistinctNodes(nodes) && i < |nodes|
    ensures Position(nodes, nodes[i]) == i
  {
    if i > 0 {
      assert nodes[1..][i - 1] == nodes[i];
      PositionOf(nodes[1..], i - 1);
    }
  }

  lemma PositionsDiffer(nodes: seq<TextNode>, a: TextNode, b: TextNode)
    requires DistinctNodes(nodes) && a in nodes && b in nodes && Position(nodes, a) == Position(nodes, b)
    ensures a == b
  {
    var i :| 0 <= i < |nodes| && nodes[i] == a;
    var j :| 0 <= j < |nodes| && nodes[j] == b;
    PositionOf(nodes, i);
    PositionOf(nodes, j);
  }

  /** `nodes` come from `texts` and stand in their order. */
  ghost predicate InOrder(nodes: seq<TextNode>, texts: seq<TextNode>) {
    && (forall t | t in nodes :: t in texts)
    && (forall i, j | 0 <= i < j < |nodes| :: Position(texts, nodes[i]) <= Position(texts, nodes[j]))
  }

  /** No member of `a` stands behind a member of `b`. */
  ghost predicate Before(a: seq<TextNode>, b: seq<TextNode>, texts: seq<TextNode>) {
    forall s, t | s in a && t in b :: Position(texts, s) <= Position(texts, t)
  }

  ghost predicate Within(nodes: seq<TextNode>, texts: seq<TextNode>) {
    forall t | t in nodes :: t in texts
  }

  lemma OrderSplits(a: seq<TextNode>, b: seq<TextNode>, texts: seq<TextNode>)
    requires Within(a, texts) && Within(b, texts)
    ensures InOrder(a + b, texts) <==> InOrder(a, texts) && InOrder(b, texts) && Before(a, b, texts)
  {
    var both := a + b;
    if InOrder(both, texts) {
      forall i, j | 0 <= i < j < |a| ensures Position(texts, a[i]) <= Position(texts, a[j]) {
        assert both[i] == a[i] && both[j] == a[j];
      }
      forall i, j | 0 <= i < j < |b| ensures Position(texts, b[i]) <= Position(texts, b[j]) {
        assert both[|a| + i] == b[i] && both[|a| + j] == b[j];
      }
      forall s, t | s in a && t in b ensures Position(texts, s) <= Position(texts, t) {
        var i :| 0 <= i < |a| && a[i] == s;
        var j :| 0 <= j < |b| && b[j] == t;
        assert both[i] == s && both[|a| + j] == t;
      }
    }
    if InOrder(a, texts) && InOrder(b, texts) && Before(a, b, texts) {
      forall i, j | 0 <= i < j < |both| ensures Position(texts, both[i]) <= Position(texts, both[j]) {
        assert i < |a| <= j ==> both[i] in a && both[j] in b;
      }
    }
  }

  /** Order inside one of two consecutive ranges of the text. */
  lemma OrderLifts(nodes: seq<TextNode>, s: seq<TextNode>, t: seq<TextNode>)
    requires DistinctNodes(s + t)
    ensures Within(nodes, s) ==> (InOrder(nodes, s + t) <==> InOrder(nodes, s))
    ensures Within(nodes, t) ==> (InOrder(nodes, s + t) <==> InOrder(nodes, t))
  {
    DistinctSplits(s, t);
    forall n | n in nodes ensures Position(s + t, n) == if n in s then Position(s, n) else |s| + Position(t, n) {
      PositionAppend(s, t, n);
    }
    assert forall i | 0 <= i < |nodes| :: nodes[i] in nodes;
  }

  /** Nodes of consecutive ranges of the text, in the order of the ranges. */
  lemma OrderJoins(a: seq<TextNode>, b: seq<TextNode>, s: seq<TextNode>, t: seq<TextNode>)
    requires DistinctNodes(s + t) && Within(a, s) && Within(b, t)
    ensures InOrder(a + b, s + t) <==> InOrder(a, s) && InOrder(b, t)
  {
    OrderLifts(a, s, t);
    OrderLifts(b, s, t);
    DistinctSplits(s, t);
    forall m, n | m in a && n in b ensures Position(s + t, m) <= Position(s + t, n) {
      PositionAppend(s, t, m);
      PositionAppend(s, t, n);
    }
    OrderSplits(a, b, s + t);
  }

  lemma TailBag(head: TextNode, tail: seq<TextNode>)
    ensures multiset([head] + tail) - multiset([head]) == multiset(tail)
  {
  }

  lemma OrderedTail(nodes: seq<TextNode>, texts: seq<TextNode>)
    requires InOrder(nodes, texts) && nodes != []
    ensures InOrder(nodes[1..], texts)
    ensures forall t | t in nodes :: Position(texts, nodes[0]) <= Position(texts, t)
  {
    var rest := nodes[1..];
    assert forall i | 0 <= i < |rest| :: rest[i] == nodes[i + 1];
  }

  lemma {:induction false} SameOrder(a: seq<TextNode>, b: seq<TextNode>, texts: seq<TextNode>)
    requires DistinctNodes(texts) && InOrder(a, texts) && InOrder(b, texts) && multiset(a) == multiset(b)
    ensures a == b
    decreases |a|
  {
    assert |multiset(a)| == |multiset(b)|;
    if a != [] {
      assert a[0] in multiset(b) && b[0] in multiset(a);
      OrderedTail(a, texts);
      OrderedTail(b, texts);
      PositionsDiffer(texts, a[0], b[0]);
      assert a == [a[0]] + a[1..] && b == [b[0]] + b[1..];
      TailBag(a[0], a[1..]);
      TailBag(b[0], b[1..]);
      SameOrder(a[1..], b[1..], texts);
    }
  }

  lemma WholeInOrder(texts: seq<TextNode>)
    requires DistinctNodes(texts)
    ensures InOrder(texts, texts)
  {
    forall i | 0 <= i < |texts| ensures Position(texts, texts[i]) == i {
      PositionOf(texts, i);
    }
  }

  // ---------------------------------------------------------------- passages out of order

  /** Text that a walk from here collects follows text of a passage that starts here. */
  ghost predicate TextAfterPassage(children: seq<Node>) {
    !Before(WalkSource(children), Concat(VisitPassages(children)), TextsOf(children))
  }

  /** Some passage has text of its own behind text of a passage inside it, which is pushed later. */
  ghost predicate NarratedLate(forest: seq<Node>) {
    forest != [] && (
      || NarratedLate(forest[1..])
      || (forest[0].Elem? && (
            || (IsPassageElement(forest[0]) && !Blank(Spell(WalkSource(forest[0].children)))
                && TextAfterPassage(forest[0].children))
            || NarratedLate(forest[0].children))))
  }

  lemma {:induction false} WalkInOrder(forest: seq<Node>)
    requires DistinctNodes(TextsOf(forest))
    ensures InOrder(WalkSource(forest), TextsOf(forest)) && InOrder(RubySource(forest), TextsOf(forest))
  {
    if forest != [] {
      var node, rest := forest[0], forest[1..];
      DistinctSplits(TextsIn(node), TextsOf(rest));
      WalkInOrder(rest);
      if node.Elem? {
        WalkInOrder(node.children);
      }
      assert InOrder(SourceIn(node), TextsIn(node)) && InOrder(RubySourceIn(node), TextsIn(node));
      OrderJoins(SourceIn(node), WalkSource(rest), TextsIn(node), TextsOf(rest));
      OrderJoins(RubySourceIn(node), RubySource(rest), TextsIn(node), TextsOf(rest));
    }
  }

  /** What passages say comes from the text. */
  lemma {:induction false} PassagesWithin(forest: seq<Node>)
    requires DistinctNodes(TextsOf(forest))
    ensures Within(Concat(VisitPassages(forest)), TextsOf(forest))
  {
    if forest != [] {
      var node, rest := forest[0], forest[1..];
      DistinctSplits(TextsIn(node), TextsOf(rest));
      TextsMembers(forest);
      PassagesWithin(rest);
      ConcatAppend(PassagesIn(node), VisitPassages(rest));
      if node.Elem? {
        PassagesWithin(node.children);
        WalkInOrder(node.children);
        PassagesOfElement(node);
      }
    }
  }

  /** The text a passage element pushes itself, before what is inside it. */
  function OwnPassage(node: Node): seq<TextNode>
    requires node.Elem?
  {
    if IsPassageElement(node) && !Blank(Spell(WalkSource(node.children))) then WalkSource(node.children) else []
  }

  lemma PassagesOfElement(node: Node)
    requires node.Elem?
    ensures Concat(PassagesIn(node)) == OwnPassage(node) + Concat(VisitPassages(node.children))
  {
    var own: seq<seq<TextNode>> := if IsPassageElement(node) then BlockPassage(node.children) else [];
    ConcatAppend(own, VisitPassages(node.children));
    assert Concat([WalkSource(node.children)]) == WalkSource(node.children) + Concat([]);
  }

  lemma ElementInOrder(node: Node)
    requires node.Elem? && DistinctNodes(TextsOf(node.children))
    ensures InOrder(Concat(PassagesIn(node)), TextsIn(node))
       <==> InOrder(Concat(VisitPassages(node.children)), TextsOf(node.children))
            && (OwnPassage(node) != [] ==> !TextAfterPassage(node.children))
  {
    PassagesOfElement(node);
    PassagesWithin(node.children);
    WalkInOrder(node.children);
    OrderSplits(OwnPassage(node), Concat(VisitPassages(node.children)), TextsOf(node.children));
  }

  /** Pushed passages follow the text exactly when no passage is narrated late. */
  lemma {:induction false} PushedInOrderIff(forest: seq<Node>)
    requires DistinctNodes(TextsOf(forest))
    ensures InOrder(Concat(VisitPassages(forest)), TextsOf(forest)) <==> !NarratedLate(forest)
  {
    if forest != [] {
      var node, rest := forest[0], forest[1..];
      DistinctSplits(TextsIn(node), TextsOf(rest));
      PushedInOrderIff(rest);
      PassagesWithin(rest);
      ConcatAppend(PassagesIn(node), VisitPassages(rest));
      if node.Elem? {
        PushedInOrderIff(node.children);
        ElementInOrder(node);
        OwnPassageIff(node);
      }
      ElementWithin(node);
      OrderJoins(Concat(PassagesIn(node)), Concat(VisitPassages(rest)), TextsIn(node), TextsOf(rest));
    }
  }

  lemma OwnPassageIff(node: Node)
    requires node.Elem?
    ensures OwnPassage(node) != [] <==> IsPassageElement(node) && !Blank(Spell(WalkSource(node.children)))
  {
    assert Spell([]) == "";
  }

  lemma ElementWithin(node: Node)
    requires DistinctNodes(TextsIn(node))
    ensures Within(Concat(PassagesIn(node)), TextsIn(node))
  {
    if node.Elem? {
      PassagesOfElement(node);
      PassagesWithin(node.children);
      WalkInOrder(node.children);
    }
  }

  // ---------------------------------------------------------------- what is in the ledger

  lemma {:induction false} SourceOfNone(entries: seq<Entry>)
    requires forall e | e in entries :: !e.role.Source?
    ensures SourceOf(entries) == []
  {
    if entries != [] {
      SourceOfNone(entries[1..]);
    }
  }

  lemma {:induction false} WalkPushesNoSource(forest: seq<Node>)
    ensures forall e | e in WalkLedger(forest) :: !e.role.Source?
    ensures forall e | e in RubyLedger(forest) :: !e.role.Source?
    ensures forall e | e in RubyReadings(forest) :: !e.role.Source?
  {
    if forest != [] {
      if forest[0].Elem? {
        WalkPushesNoSource(forest[0].children);
      }
      WalkPushesNoSource(forest[1..]);
    }
  }

  lemma BlockSource(children: seq<Node>)
    ensures SourceOf(BlockLedger(children)) == Concat(BlockPassage(children))
  {
    var nodes := WalkSource(children);
    WalkPushesNoSource(children);
    SourceOfNone(WalkLedger(children));
    SourceOfMark(nodes, BlockRole(nodes));
    SourceOfAppend(WalkLedger(children), Mark(nodes, BlockRole(nodes)));
    assert Concat([nodes]) == nodes + Concat([]);
  }

  /** The visit pushes source entries as it pushes passages. */
  lemma {:induction false} VisitSource(forest: seq<Node>)
    ensures SourceOf(VisitLedger(forest)) == Concat(VisitPassages(forest))
  {
    if forest != [] {
      var node, rest := forest[0], forest[1..];
      VisitSource(rest);
      SourceOfAppend(VisitIn(node), VisitLedger(rest));
      ConcatAppend(PassagesIn(node), VisitPassages(rest));
      if node.Elem? {
        VisitSource(node.children);
        if IsPassageElement(node) {
          BlockSource(node.children);
          SourceOfAppend(BlockLedger(node.children), VisitLedger(node.children));
          ConcatAppend(BlockPassage(node.children), VisitPassages(node.children));
        } else {
          assert VisitIn(node) == [] + VisitLedger(node.children) == VisitLedger(node.children);
          assert PassagesIn(node) == [] + VisitPassages(node.children) == VisitPassages(node.children);
        }
      }
    }
  }

  /** Captured are the unseen text nodes, as often as they occur. */
  lemma {:induction false} CapturedCount(forest: seq<Node>, seen: set<TextNode>, markup: bool, t: TextNode)
    ensures multiset(NodesOf(Captured(forest, seen, markup)))[t] == if t in seen then 0 else multiset(TextsOf(forest))[t]
  {
    if forest != [] {
      var node, rest := forest[0], forest[1..];
      var here, later := CapturedIn(node, seen, markup), Captured(rest, seen, markup);
      CapturedCount(rest, seen, markup, t);
      NodesAppend(here, later);
      if node.Elem? {
        CapturedCount(node.children, seen, markup || IsMarkup(node), t);
      } else {
        assert NodesOf(here) == if node.text in seen then [] else [node.text];
      }
      assert multiset(TextsOf(forest)) == multiset(TextsIn(node)) + multiset(TextsOf(rest));
      assert multiset(NodesOf(here + later)) == multiset(NodesOf(here)) + multiset(NodesOf(later));
    }
  }

  lemma {:induction false} CapturedNoSource(forest: seq<Node>, seen: set<TextNode>, markup: bool)
    ensures SourceOf(Captured(forest, seen, markup)) == []
  {
    if forest != [] {
      CapturedNoSource(forest[1..], seen, markup);
      SourceOfAppend(CapturedIn(forest[0], seen, markup), Captured(forest[1..], seen, markup));
      if forest[0].Elem? {
        CapturedNoSource(forest[0].children, seen, markup || IsMarkup(forest[0]));
      }
    }
  }

  lemma NodesCons(head: Entry, tail: seq<Entry>)
    ensures multiset(NodesOf([head] + tail)) == multiset{head.node} + multiset(NodesOf(tail))
  {
    NodesAppend([head], tail);
    assert NodesOf([head]) == [head.node];
  }

  lemma {:induction false} InsertNodes(e: Entry, entries: seq<Entry>, order: map<TextNode, nat>)
    ensures multiset(NodesOf(Insert(e, entries, order))) == multiset{e.node} + multiset(NodesOf(entries))
  {
    if entries == [] || Rank(order, e.node) <= Rank(order, entries[0].node) {
      NodesCons(e, entries);
    } else {
      InsertNodes(e, entries[1..], order);
      assert entries == [entries[0]] + entries[1..];
      NodesCons(entries[0], entries[1..]);
      NodesCons(entries[0], Insert(e, entries[1..], order));
    }
  }

  lemma {:induction false} SortNodes(entries: seq<Entry>, order: map<TextNode, nat>)
    ensures multiset(NodesOf(SortLedger(entries, order))) == multiset(NodesOf(entries))
  {
    if entries != [] {
      SortNodes(entries[1..], order);
      InsertNodes(entries[0], SortLedger(entries[1..], order), order);
      assert entries == [entries[0]] + entries[1..];
      NodesCons(entries[0], entries[1..]);
    }
  }

  lemma SourceCons(head: Entry, tail: seq<Entry>)
    ensures multiset(SourceOf([head] + tail)) == multiset(SourceOf([head])) + multiset(SourceOf(tail))
  {
    SourceOfAppend([head], tail);
  }

  lemma {:induction false} InsertSource(e: Entry, entries: seq<Entry>, order: map<TextNode, nat>)
    ensures multiset(SourceOf(Insert(e, entries, order))) == multiset(SourceOf([e])) + multiset(SourceOf(entries))
  {
    if entries == [] || Rank(order, e.node) <= Rank(order, entries[0].node) {
      SourceCons(e, entries);
    } else {
      InsertSource(e, entries[1..], order);
      assert entries == [entries[0]] + entries[1..];
      SourceCons(entries[0], entries[1..]);
      SourceCons(entries[0], Insert(e, entries[1..], order));
    }
  }

  lemma {:induction false} SortSource(entries: seq<Entry>, order: map<TextNode, nat>)
    ensures multiset(SourceOf(SortLedger(entries, order))) == multiset(SourceOf(entries))
  {
    if entries != [] {
      SortSource(entries[1..], order);
      InsertSource(entries[0], SortLedger(entries[1..], order), order);
      assert entries == [entries[0]] + entries[1..];
      SourceCons(entries[0], entries[1..]);
    }
  }

  lemma {:induction false} SourceInOrder(entries: seq<Entry>, texts: seq<TextNode>)
    requires InOrder(NodesOf(entries), texts)
    ensures InOrder(SourceOf(entries), texts)
    ensures forall t | t in SourceOf(entries) :: t in NodesOf(entries)
  {
    if entries != [] {
      var rest := entries[1..];
      assert NodesOf(entries)[1..] == NodesOf(rest) && NodesOf(entries) == [entries[0].node] + NodesOf(rest);
      OrderedTail(NodesOf(entries), texts);
      SourceInOrder(rest, texts);
      if entries[0].role.Source? {
        OrderSplits([entries[0].node], SourceOf(rest), texts);
      }
    }
  }

  lemma RankIsPosition(texts: seq<TextNode>, t: TextNode)
    requires DistinctNodes(texts) && t in texts
    ensures Rank(Positions(texts), t) == Position(texts, t)
  {
    PositionsIndex(texts);
    var k :| 0 <= k < |texts| && texts[k] == t;
    PositionOf(texts, k);
  }

  lemma OrderedIsInOrder(entries: seq<Entry>, texts: seq<TextNode>)
    requires DistinctNodes(texts) && Within(NodesOf(entries), texts) && Ordered(entries, Positions(texts))
    ensures InOrder(NodesOf(entries), texts)
  {
    forall i | 0 <= i < |entries|
      ensures NodesOf(entries)[i] == entries[i].node && Rank(Positions(texts), entries[i].node) == Position(texts, entries[i].node)
    {
      assert NodesOf(entries)[i] in texts;
      RankIsPosition(texts, entries[i].node);
    }
  }

  /** The sorted ledger is in document order. */
  lemma SortedInOrder(entries: seq<Entry>, texts: seq<TextNode>)
    requires DistinctNodes(texts) && Within(NodesOf(entries), texts)
    ensures InOrder(NodesOf(SortLedger(entries, Positions(texts))), texts)
  {
    var sorted := SortLedger(entries, Positions(texts));
    SortSorts(entries, Positions(texts));
    SortNodes(entries, Positions(texts));
    forall t | t in NodesOf(sorted) ensures t in texts {
      assert t in multiset(NodesOf(sorted));
      assert t in NodesOf(entries);
    }
    OrderedIsInOrder(sorted, texts);
  }

  // ---------------------------------------------------------------- the exact conditions

  /** All entries, before they are sorted. */
  function Pushed(body: seq<Node>): seq<Entry> {
    VisitLedger(body) + Captured(body, SeenBy(VisitLedger(body)), false)
  }

  lemma PushedNodes(body: seq<Node>)
    requires DistinctNodes(TextsOf(body))
    ensures Within(NodesOf(Pushed(body)), TextsOf(body))
    ensures multiset(NodesOf(Pushed(body))) == multiset(TextsOf(body)) <==> Once(Bag(body, Nobody))
    ensures SourceOf(Pushed(body)) == Concat(VisitPassages(body))
  {
    var visited, seen := NodesOf(VisitLedger(body)), SeenBy(VisitLedger(body));
    var captured := NodesOf(Captured(body, seen, false));
    NodesAppend(VisitLedger(body), Captured(body, seen, false));
    SourceOfAppend(VisitLedger(body), Captured(body, seen, false));
    forall t ensures multiset(captured)[t] == if t in seen then 0 else multiset(TextsOf(body))[t] {
      CapturedCount(body, seen, false, t);
    }
    CapturedNoSource(body, seen, false);
    VisitSource(body);
    BagWithin(body, Nobody);
    forall t ensures t in seen <==> t in visited {
      SeenAreNodes(VisitLedger(body), t);
    }
    forall t ensures multiset(TextsOf(body))[t] == if t in TextsOf(body) then 1 else 0 {
      DistinctCounts(TextsOf(body), t);
    }
    assert Bag(body, Nobody) == multiset(visited);
    PushedCounts(visited, captured, TextsOf(body), seen);
  }

  lemma SeenAreNodes(entries: seq<Entry>, t: TextNode)
    ensures t in SeenBy(entries) <==> t in NodesOf(entries)
  {
    if t in SeenBy(entries) {
      var i :| 0 <= i < |entries| && entries[i].node == t;
      assert NodesOf(entries)[i] == t;
    }
  }

  lemma {:induction false} DistinctCounts(nodes: seq<TextNode>, t: TextNode)
    requires DistinctNodes(nodes)
    ensures multiset(nodes)[t] == if t in nodes then 1 else 0
  {
    if nodes != [] {
      assert nodes == [nodes[0]] + nodes[1..];
      DistinctSplits([nodes[0]], nodes[1..]);
      DistinctCounts(nodes[1..], t);
    }
  }

  lemma PushedCounts(visited: seq<TextNode>, captured: seq<TextNode>, texts: seq<TextNode>, seen: set<TextNode>)
    requires forall t :: multiset(captured)[t] == if t in seen then 0 else multiset(texts)[t]
    requires forall t :: t in seen <==> t in visited
    requires forall t :: multiset(texts)[t] == if t in texts then 1 else 0
    requires Within(visited, texts)
    ensures multiset(visited + captured) == multiset(texts) <==> Once(multiset(visited))
    ensures Within(visited + captured, texts)
  {
    forall t | t in captured ensures t in texts {
      assert t in multiset(captured);
      assert multiset(texts)[t] > 0;
    }
    assert multiset(visited + captured) == multiset(visited) + multiset(captured);
    if multiset(visited + captured) == multiset(texts) {
      forall t ensures multiset(visited)[t] <= 1 {
        assert multiset(visited + captured)[t] <= 1;
      }
    }
    if Once(multiset(visited)) {
      forall t ensures multiset(visited + captured)[t] == multiset(texts)[t] {
        assert multiset(visited)[t] <= 1;
        assert t in visited ==> multiset(visited)[t] == 1;
      }
    }
  }

  /**
   * For markup of every shape: a returned ledger holds every text node exactly once, in document
   * order, if and only if no passage that bears text starts where an enclosing passage records
   * everything; and the passages are its source entries, node by node, if and only if no passage has
   * text behind text of a passage inside it.
   */
  lemma ExtractionIsExactIff(body: seq<Node>)
    requires DistinctNodes(TextsOf(body)) && Extracted(body).Ok?
    ensures NodesOf(Extracted(body).value.ledger) == TextsOf(body) <==> !RecordedTwice(body, Nobody)
    ensures SourceOf(Extracted(body).value.ledger) == Concat(VisitPassages(body)) <==> !NarratedLate(body)
    ensures Extracted(body).value.passages == SpellEach(VisitPassages(body))
  {
    var texts, pushed, ledger := TextsOf(body), Pushed(body), Extracted(body).value.ledger;
    PushedNodes(body);
    OnceIff(body, Nobody);
    SortNodes(pushed, Positions(texts));
    SortSource(pushed, Positions(texts));
    SortedInOrder(pushed, texts);
    WholeInOrder(texts);
    if multiset(NodesOf(ledger)) == multiset(texts) {
      SameOrder(NodesOf(ledger), texts, texts);
    }
    SourceInOrder(ledger, texts);
    PushedInOrderIff(body);
    if !NarratedLate(body) {
      SameOrder(SourceOf(ledger), Concat(VisitPassages(body)), texts);
    }
  }

  /** `Clean` markup with its order kept has neither defect. */
  lemma CleanIsExact(body: seq<Node>)
    requires Clean(body, true) && DistinctNodes(TextsOf(body)) && Extracted(body).Ok?
    ensures !RecordedTwice(body, Nobody) && !NarratedLate(body)
  {
    ExtractionIsExact(body);
    ExtractionIsExactIff(body);
  }

  // ---------------------------------------------------------------- both defects occur

  /** `<p>` around `around` around `<p>x</p>`. */
  function Nested(around: Name, x: TextNode): seq<Node> {
    [Elem(P, false, [Elem(around, false, [Elem(P, false, [Leaf(x)])])])]
  }

  lemma SpellOne(x: TextNode)
    ensures Spell([x]) == x.content && SpellEach([[x]]) == [x.content]
  {
    assert [x][1..] == [];
  }

  /** `<p>x</p>` on its own. */
  lemma PlainPassage(x: TextNode) returns (inner: Node)
    requires !Blank(x.content)
    ensures inner == Elem(P, false, [Leaf(x)]) && TextsIn(inner) == [x] && OrderIsKept([inner])
    ensures VisitIn(inner) == [Entry(x, Source)] && PassagesIn(inner) == [[x]] && BearsText(inner)
    ensures RubySourceIn(inner) == [x] && RubyLedgerIn(inner) == []
  {
    inner := Elem(P, false, [Leaf(x)]);
    OneNode(Leaf(x));
    OneNode(inner);
    assert [Leaf(x)][1..] == [] && [inner][1..] == [];
    SpellOne(x);
    assert Mark([x], Source) == [Entry(x, Source)];
    assert BlockLedger([Leaf(x)]) == [Entry(x, Source)];
    assert !HasNestedRoot([Leaf(x)]) && OrderIsKept([Leaf(x)]);
  }

  lemma NothingLeft(body: seq<Node>, x: TextNode)
    requires TextsOf(body) == [x] && x in NodesOf(VisitLedger(body)) && OrderIsKept(body)
    ensures Extracted(body).Ok? && Extracted(body).value.passages == SpellEach(VisitPassages(body))
    ensures Extracted(body).value.ledger == SortLedger(VisitLedger(body), Positions([x]))
  {
    SeenAreNodes(VisitLedger(body), x);
    AllSeen(body, SeenBy(VisitLedger(body)), false);
    assert VisitLedger(body) + [] == VisitLedger(body);
  }

  lemma ScriptVisit(x: TextNode, body: seq<Node>)
    requires !Blank(x.content) && body == Nested(Script, x)
    ensures VisitLedger(body) == [Entry(x, NonStoryMarkup), Entry(x, Source)] && TextsOf(body) == [x] && OrderIsKept(body)
  {
    var inner := PlainPassage(x);
    var middle := Elem(Script, false, [inner]);
    var outer := Elem(P, false, [middle]);
    OneNode(inner);
    OneNode(middle);
    OneNode(outer);
    assert [inner][1..] == [] && [middle][1..] == [] && [outer][1..] == [];
    assert Mark([x], NonStoryMarkup) == [Entry(x, NonStoryMarkup)];
    assert BlockLedger([middle]) == [Entry(x, NonStoryMarkup)];
    assert VisitIn(outer) == [Entry(x, NonStoryMarkup)] + [Entry(x, Source)];
  }

  /** A ledger made of two entries for the only text node holds both. */
  lemma TwoEntries(body: seq<Node>, x: TextNode, a: Entry, b: Entry)
    requires TextsOf(body) == [x] && VisitLedger(body) == [a, b] && a.node == x && OrderIsKept(body)
    ensures Extracted(body).Ok? && Extracted(body).value.passages == SpellEach(VisitPassages(body))
    ensures multiset(Extracted(body).value.ledger) == multiset{a, b}
    ensures NodesOf(Extracted(body).value.ledger) != TextsOf(body)
  {
    assert NodesOf([a, b])[0] == x;
    NothingLeft(body, x);
    SortSorts([a, b], Positions([x]));
    assert |Extracted(body).value.ledger| == |multiset{a, b}|;
    assert |NodesOf(Extracted(body).value.ledger)| == 2;
  }

  /** Inside a script of a passage, a passage is recorded as markup and as source: its text is in the ledger twice. */
  lemma PassageInScriptIsRecordedTwice(x: TextNode)
    requires !Blank(x.content)
    ensures Extracted(Nested(Script, x)).Ok?
    ensures multiset(Extracted(Nested(Script, x)).value.ledger) == multiset{Entry(x, NonStoryMarkup), Entry(x, Source)}
    ensures NodesOf(Extracted(Nested(Script, x)).value.ledger) != TextsOf(Nested(Script, x))
  {
    ScriptVisit(x, Nested(Script, x));
    TwoEntries(Nested(Script, x), x, Entry(x, NonStoryMarkup), Entry(x, Source));
  }

  lemma RubyVisit(x: TextNode, body: seq<Node>)
    requires !Blank(x.content) && body == Nested(Ruby, x)
    ensures VisitLedger(body) == [Entry(x, Source), Entry(x, Source)] && TextsOf(body) == [x] && OrderIsKept(body)
    ensures SpellEach(VisitPassages(body)) == [x.content, x.content]
  {
    var inner := PlainPassage(x);
    var middle := Elem(Ruby, false, [inner]);
    var outer := Elem(P, false, [middle]);
    OneNode(inner);
    OneNode(middle);
    OneNode(outer);
    assert [inner][1..] == [] && [middle][1..] == [] && [outer][1..] == [];
    SpellOne(x);
    assert BlockPassage([middle]) == [[x]];
    assert PassagesIn(outer) == [[x]] + [[x]];
    assert Mark([x], Source) == [Entry(x, Source)];
    assert BlockLedger([middle]) == [Entry(x, Source)];
    assert VisitIn(outer) == [Entry(x, Source)] + [Entry(x, Source)];
  }

  /** Inside ruby, a passage is walked and visited: its text is narrated twice. */
  lemma PassageInRubyIsNarratedTwice(x: TextNode)
    requires !Blank(x.content)
    ensures Extracted(Nested(Ruby, x)).Ok? && Extracted(Nested(Ruby, x)).value.passages == [x.content, x.content]
    ensures NodesOf(Extracted(Nested(Ruby, x)).value.ledger) != TextsOf(Nested(Ruby, x))
  {
    RubyVisit(x, Nested(Ruby, x));
    TwoEntries(Nested(Ruby, x), x, Entry(x, Source), Entry(x, Source));
  }

  /** Outside every passage, a passage inside a script is extracted once: `Clean` is more than is needed. */
  lemma ScriptOutsidePassagesIsHarmless(x: TextNode)
    requires !Blank(x.content)
    ensures var body := [Elem(Script, false, [Elem(P, false, [Leaf(x)])])];
            !Clean(body, true) && !RecordedTwice(body, Nobody) && !NarratedLate(body)
  {
    var inner := PlainPassage(x);
    var outer := Elem(Script, false, [inner]);
    OneNode(Leaf(x));
    OneNode(inner);
    assert [Leaf(x)][1..] == [] && [inner][1..] == [] && [outer][1..] == [];
    assert Below(outer, Nobody) == Nobody && Below(inner, Nobody) == Block;
    assert !RecordedTwice([], Block) && !RecordedTwice([], Nobody);
    assert !RecordedTwice(inner.children, Block);
    assert !RecordedTwice([inner], Nobody);
    assert Concat(VisitPassages([Leaf(x)])) == [];
    assert !NarratedLate([Leaf(x)]) && !NarratedLate([inner]);
    assert !Clean([inner], false);
  }

  /** `<p>a<script><p>x</p></script>b</p>`: the nested-order check does not look into scripts. */
  function Interrupted(a: TextNode, x: TextNode, b: TextNode): seq<Node> {
    [Elem(P, false, [Leaf(a), Elem(Script, false, [Elem(P, false, [Leaf(x)])]), Leaf(b)])]
  }

  lemma InterruptedParts(a: TextNode, x: TextNode, b: TextNode, children: seq<Node>)
    requires !Blank(x.content) && children == Interrupted(a, x, b)[0].children
    ensures TextsOf(children) == [a, x, b] && WalkSource(children) == [a, b]
    ensures Concat(VisitPassages(children)) == [x] && OrderIsKept(children) && !HasNestedRoot(children)
  {
    var inner := PlainPassage(x);
    var script := Elem(Script, false, [inner]);
    OneNode(inner);
    assert [inner][1..] == [] && children[1..] == [script, Leaf(b)] && children[2..] == [Leaf(b)] && children[3..] == [];
    assert children[1..][1..] == children[2..] && children[2..][1..] == children[3..];
    assert TextsOf(children[2..]) == [b] && TextsOf(children[1..]) == [x] + [b];
    assert WalkSource(children[2..]) == [b] && WalkSource(children[1..]) == [] + [b];
    assert VisitPassages(children[2..]) == [] && VisitPassages(children[1..]) == [[x]] + [];
    assert VisitPassages(children) == [] + [[x]];
    assert Concat([[x]]) == [x] + Concat([]);
    assert OrderIsKept(children[2..]) && OrderIsKept(children[1..]);
    assert !HasNestedRoot(children[2..]) && !HasNestedRoot(children[1..]);
  }

  lemma InterruptedIsLate(a: TextNode, x: TextNode, b: TextNode, body: seq<Node>)
    requires !Blank(a.content) && !Blank(x.content) && a != x && a != b && x != b && body == Interrupted(a, x, b)
    ensures OrderIsKept(body) && NarratedLate(body) && TextsOf(body) == [a, x, b]
  {
    var children := body[0].children;
    InterruptedParts(a, x, b, children);
    OneNode(body[0]);
    SpellAppend([a], [b]);
    SpellOne(a);
    BlankAppend(a.content, Spell([b]));
    assert [a] + [b] == [a, b] && body[1..] == [] && body == [body[0]];
    var texts := [a, x, b];
    PositionOf(texts, 1);
    PositionOf(texts, 2);
    assert b in WalkSource(children) && x in Concat(VisitPassages(children));
    assert Position(texts, b) == 2 && Position(texts, x) == 1;
  }

  lemma {:induction false} SourceWithin(entries: seq<Entry>, t: TextNode)
    requires t in SourceOf(entries)
    ensures t in NodesOf(entries)
  {
    if entries[0].role.Source? && entries[0].node == t {
      assert NodesOf(entries)[0] == t;
    } else {
      SourceWithin(entries[1..], t);
      assert NodesOf(entries) == [entries[0].node] + NodesOf(entries[1..]);
    }
  }

  lemma InterruptedIsSeen(a: TextNode, x: TextNode, b: TextNode, body: seq<Node>)
    requires !Blank(x.content) && body == Interrupted(a, x, b)
    ensures forall t | t in [a, x, b] :: t in NodesOf(VisitLedger(body))
  {
    var node, children := body[0], body[0].children;
    InterruptedParts(a, x, b, children);
    BagOfPassage(node);
    assert body == [node];
    VisitSource(children);
    SourceWithin(VisitLedger(children), x);
    var bag := multiset(NodesOf(VisitLedger(body)));
    assert a in CoverBag(children, Block) && b in CoverBag(children, Block) && x in multiset(NodesOf(VisitLedger(children)));
    assert a in bag && b in bag && x in bag;
  }

  /** Text behind a passage in a script is narrated before it, and the order check lets it through. */
  lemma PassageInScriptIsNarratedLate(a: TextNode, x: TextNode, b: TextNode)
    requires !Blank(a.content) && !Blank(x.content) && a != x && a != b && x != b
    ensures Extracted(Interrupted(a, x, b)).Ok?
    ensures SourceOf(Extracted(Interrupted(a, x, b)).value.ledger) != Concat(VisitPassages(Interrupted(a, x, b)))
  {
    var body := Interrupted(a, x, b);
    InterruptedIsLate(a, x, b, body);
    InterruptedIsSeen(a, x, b, body);
    forall t | t in TextsOf(body) ensures t in SeenBy(VisitLedger(body)) {
      SeenAreNodes(VisitLedger(body), t);
    }
    AllSeen(body, SeenBy(VisitLedger(body)), false);
    ExtractionIsExactIff(body);
  }
}
