/**
 * Exact, once-only coverage of a chapter's source passages
 * (packages/domain/src/source-coverage.ts, packages/application/src/split-directed-segments.ts:232-243).
 */
module SourceCoverage {
  import opened Wrappers
  import opened Text
  import Splitter

  datatype Passage = Passage(id: string, text: string)

  /** A directed fragment; `annotation` is everything a split piece inherits unchanged. */
  datatype Fragment<A> = Fragment(passageId: string, text: string, annotation: A)

  /** Position of a segment within its passage; `StableIds.segment` renders it injectively. */
  datatype SegmentId = SegmentId(passageId: string, ordinal: nat)

  datatype Segment<A> = Segment(id: SegmentId, order: nat, fragment: Fragment<A>)

  datatype CoverageError =
    | NoFragments
    | MissingOrOutOfOrder(missing: string)
    | Rewritten(rewritten: string)
    | Extra(extra: string)

  datatype CreateError = Coverage(coverage: CoverageError) | EmptyText

  /** Guaranteed by the `Chapter` and `SourcePassage` constructors. */
  ghost predicate ProperPassages(passages: seq<Passage>) {
    && (forall i | 0 <= i < |passages| :: passages[i].text != "")
    && (forall i, j | 0 <= i < j < |passages| :: passages[i].id != passages[j].id)
  }

  function Texts<A>(fragments: seq<Fragment<A>>): seq<string> {
    seq(|fragments|, i requires 0 <= i < |fragments| => fragments[i].text)
  }

  function Flatten<T>(groups: seq<seq<T>>): seq<T> {
    if groups == [] then [] else groups[0] + Flatten(groups[1..])
  }

  predicate OfPassage<A>(group: seq<Fragment<A>>, id: string) {
    forall i | 0 <= i < |group| :: group[i].passageId == id
  }

  predicate GroupCovers<A>(group: seq<Fragment<A>>, passage: Passage) {
    group != [] && OfPassage(group, passage.id) && Join(Texts(group)) == passage.text
  }

  /** `groups` divides `directed` into one nonempty run per passage spelling exactly its text. */
  ghost predicate ExactCoverage<A>(passages: seq<Passage>, groups: seq<seq<Fragment<A>>>, directed: seq<Fragment<A>>) {
    && |groups| == |passages|
    && Flatten(groups) == directed
    && (forall i | 0 <= i < |passages| :: GroupCovers(groups[i], passages[i]))
  }

  lemma {:induction false} FlattenAppend<T>(a: seq<seq<T>>, b: seq<seq<T>>)
    ensures Flatten(a + b) == Flatten(a) + Flatten(b)
  {
    if a == [] {
      assert a + b == b;
    } else {
      FlattenAppend(a[1..], b);
      assert (a + b)[1..] == a[1..] + b && (a + b)[0] == a[0];
      var middle, last := Flatten(a[1..]), Flatten(b);
      assert a[0] + (middle + last) == (a[0] + middle) + last;
    }
  }

  lemma FlattenSnoc<T>(a: seq<seq<T>>, group: seq<T>)
    ensures Flatten(a + [group]) == Flatten(a) + group
  {
    FlattenAppend(a, [group]);
    assert Flatten([group]) == group + Flatten([]);
  }

  // ---------------------------------------------------------------- grouping

  /** End of the run of fragments that name `id`, starting at `from`. */
  function RunEnd<A>(directed: seq<Fragment<A>>, from: nat, id: string): (end: nat)
    requires from <= |directed|
    ensures from <= end <= |directed|
    decreases |directed| - from
  {
    if from < |directed| && directed[from].passageId == id
    then RunEnd(directed, from + 1, id)
    else from
  }

  /** The passages still to match against `directed[from..]`. */
  function Group<A>(passages: seq<Passage>, directed: seq<Fragment<A>>, from: nat)
    : (r: Result<seq<seq<Fragment<A>>>, CoverageError>)
    requires from <= |directed|
    ensures r.Ok? ==> |r.value| == |passages|
    decreases |passages|
  {
    if passages == [] then
      if from == |directed| then Ok([]) else Err(Extra(directed[from].passageId))
    else
      var end := RunEnd(directed, from, passages[0].id);
      if end == from then Err(MissingOrOutOfOrder(passages[0].id))
      else if Join(Texts(directed[from..end])) != passages[0].text then Err(Rewritten(passages[0].id))
      else
        var rest :- Group(passages[1..], directed, end);
        Ok([directed[from..end]] + rest)
  }

  function GroupAll<A>(passages: seq<Passage>, directed: seq<Fragment<A>>)
    : Result<seq<seq<Fragment<A>>>, CoverageError>
  {
    if directed == [] then Err(NoFragments) else Group(passages, directed, 0)
  }

  method GroupExactFragments<A>(passages: seq<Passage>, directed: seq<Fragment<A>>)
    returns (r: Result<seq<seq<Fragment<A>>>, CoverageError>)
    ensures r == GroupAll(passages, directed)
  {
    if directed == [] {
      return Err(NoFragments);
    }
    var grouped: seq<seq<Fragment<A>>> := [];
    var directedIndex := 0;
    assert passages[0..] == passages;
    for k := 0 to |passages|
      invariant directedIndex <= |directed|
      invariant var rest := Group(passages[k..], directed, directedIndex);
        var whole := Group(passages, directed, 0);
        if rest.Err? then whole == rest else whole.Ok? && whole.value == grouped + rest.value
    {
      assert passages[k..][0] == passages[k] && passages[k..][1..] == passages[k + 1..];
      var fragments: seq<Fragment<A>> := [];
      var from := directedIndex;
      while directedIndex < |directed| && directed[directedIndex].passageId == passages[k].id
        invariant from <= directedIndex <= |directed|
        invariant fragments == directed[from..directedIndex]
        invariant RunEnd(directed, directedIndex, passages[k].id) == RunEnd(directed, from, passages[k].id)
      {
        fragments := fragments + [directed[directedIndex]];
        directedIndex := directedIndex + 1;
      }
      if fragments == [] {
        return Err(MissingOrOutOfOrder(passages[k].id));
      }
      if Join(Texts(fragments)) != passages[k].text {
        return Err(Rewritten(passages[k].id));
      }
      grouped := grouped + [fragments];
    }
    if directedIndex != |directed| {
      return Err(Extra(directed[directedIndex].passageId));
    }
    assert grouped + [] == grouped;
    return Ok(grouped);
  }

  lemma {:induction false} RunEndIs<A>(directed: seq<Fragment<A>>, from: nat, id: string, end: nat)
    requires from <= end <= |directed| && OfPassage(directed[from..end], id)
    requires end < |directed| ==> directed[end].passageId != id
    ensures RunEnd(directed, from, id) == end
    decreases end - from
  {
    if from < end {
      assert directed[from..end][0].passageId == id;
      assert directed[from + 1..end] == directed[from..end][1..];
      RunEndIs(directed, from + 1, id, end);
    }
  }

  lemma {:induction false} RunEndNames<A>(directed: seq<Fragment<A>>, from: nat, id: string)
    requires from <= |directed|
    ensures OfPassage(directed[from..RunEnd(directed, from, id)], id)
    decreases |directed| - from
  {
    if from < |directed| && directed[from].passageId == id {
      RunEndNames(directed, from + 1, id);
      var end := RunEnd(directed, from, id);
      assert directed[from..end] == [directed[from]] + directed[from + 1..end];
    }
  }

  lemma {:induction false} GroupIsCoverage<A>(passages: seq<Passage>, directed: seq<Fragment<A>>, from: nat)
    requires from <= |directed| && Group(passages, directed, from).Ok?
    ensures ExactCoverage(passages, Group(passages, directed, from).value, directed[from..])
    decreases |passages|
  {
    if passages != [] {
      var end := RunEnd(directed, from, passages[0].id);
      RunEndNames(directed, from, passages[0].id);
      GroupIsCoverage(passages[1..], directed, end);
      assert directed[from..] == directed[from..end] + directed[end..];
      var groups := Group(passages, directed, from).value;
      forall i | 0 <= i < |passages| ensures GroupCovers(groups[i], passages[i]) {
        if i > 0 {
          assert groups[i] == groups[1..][i - 1] && passages[i] == passages[1..][i - 1];
        }
      }
    }
  }

  lemma {:induction false} CoverageIsGrouped<A>(passages: seq<Passage>, groups: seq<seq<Fragment<A>>>,
                                                directed: seq<Fragment<A>>, from: nat)
    requires ProperPassages(passages) && from <= |directed|
    requires ExactCoverage(passages, groups, directed[from..])
    ensures Group(passages, directed, from) == Ok(groups)
    decreases |passages|
  {
    if passages != [] {
      var end := from + |groups[0]|;
      assert GroupCovers(groups[0], passages[0]);
      assert directed[from..] == groups[0] + Flatten(groups[1..]);
      assert directed[from..end] == directed[from..][..|groups[0]|] == groups[0];
      assert directed[end..] == directed[from..][|groups[0]|..] == Flatten(groups[1..]);
      forall i | 0 <= i < |passages| - 1 ensures GroupCovers(groups[1..][i], passages[1..][i]) {
        assert GroupCovers(groups[i + 1], passages[i + 1]);
      }
      if |passages| > 1 {
        assert GroupCovers(groups[1], passages[1]);
        assert directed[end] == directed[end..][0] == groups[1][0];
      }
      RunEndIs(directed, from, passages[0].id, end);
      CoverageIsGrouped(passages[1..], groups[1..], directed, end);
      assert [groups[0]] + groups[1..] == groups;
    }
  }

  /** The grouping loop accepts exactly the fragment lists that cover the chapter, and says how. */
  lemma GroupingAcceptsIff<A>(passages: seq<Passage>, directed: seq<Fragment<A>>)
    requires ProperPassages(passages) && passages != []
    ensures GroupAll(passages, directed).Ok?
       <==> exists groups :: ExactCoverage(passages, groups, directed)
    ensures GroupAll(passages, directed).Ok?
        ==> ExactCoverage(passages, GroupAll(passages, directed).value, directed)
  {
    assert directed[0..] == directed;
    if directed != [] && Group(passages, directed, 0).Ok? {
      GroupIsCoverage(passages, directed, 0);
      assert ExactCoverage(passages, GroupAll(passages, directed).value, directed);
    }
    forall groups | ExactCoverage(passages, groups, directed) ensures GroupAll(passages, directed).Ok? {
      assert GroupCovers(groups[0], passages[0]);
      CoverageIsGrouped(passages, groups, directed, 0);
    }
  }

  // ---------------------------------------------------------------- creating segments

  /** Segments of one passage's fragments from `k` on; `made` segments exist already. */
  function SegmentsOf<A>(passageId: string, group: seq<Fragment<A>>, k: nat, made: nat): seq<Segment<A>>
    requires k <= |group|
    decreases |group| - k
  {
    if k == |group| then []
    else
      var segment := Segment(SegmentId(passageId, k + 1), made + 1, group[k]);
      [segment] + SegmentsOf(passageId, group, k + 1, made + 1)
  }

  function Number<A>(passages: seq<Passage>, groups: seq<seq<Fragment<A>>>, made: nat): seq<Segment<A>>
    requires |groups| == |passages|
    decreases |groups|
  {
    if groups == [] then []
    else
      var first := SegmentsOf(passages[0].id, groups[0], 0, made);
      first + Number(passages[1..], groups[1..], made + |groups[0]|)
  }

  predicate HasText<A>(fragments: seq<Fragment<A>>) {
    forall i | 0 <= i < |fragments| :: fragments[i].text != ""
  }

  lemma {:induction false} FlattenHasText<A>(groups: seq<seq<Fragment<A>>>)
    ensures HasText(Flatten(groups)) <==> forall g | 0 <= g < |groups| :: HasText(groups[g])
  {
    if groups != [] {
      FlattenHasText(groups[1..]);
      var all := Flatten(groups);
      assert forall i | 0 <= i < |groups[0]| :: groups[0][i] == all[i];
      assert forall i | 0 <= i < |Flatten(groups[1..])| :: Flatten(groups[1..])[i] == all[|groups[0]| + i];
      assert forall g | 0 < g < |groups| :: groups[g] == groups[1..][g - 1];
    }
  }

  method AppendSegments<A>(passageId: string, group: seq<Fragment<A>>, made: seq<Segment<A>>)
    returns (r: Result<seq<Segment<A>>, CreateError>)
    ensures r == if HasText(group) then Ok(made + SegmentsOf(passageId, group, 0, |made|)) else Err(EmptyText)
  {
    var segments := made;
    for k := 0 to |group|
      invariant |segments| == |made| + k
      invariant forall j | 0 <= j < k :: group[j].text != ""
      invariant made + SegmentsOf(passageId, group, 0, |made|)
             == segments + SegmentsOf(passageId, group, k, |segments|)
    {
      if group[k].text == "" {
        return Err(EmptyText);
      }
      segments := segments + [Segment(SegmentId(passageId, k + 1), |segments| + 1, group[k])];
    }
    assert segments + [] == segments;
    return Ok(segments);
  }

  lemma NumberStep<A>(passages: seq<Passage>, groups: seq<seq<Fragment<A>>>, i: nat, segments: seq<Segment<A>>)
    requires |groups| == |passages| && i < |groups|
    ensures var more := SegmentsOf(passages[i].id, groups[i], 0, |segments|);
            segments + Number(passages[i..], groups[i..], |segments|)
            == segments + more + Number(passages[i + 1..], groups[i + 1..], |segments + more|)
  {
    assert groups[i..][0] == groups[i] && groups[i..][1..] == groups[i + 1..];
    assert passages[i..][0] == passages[i] && passages[i..][1..] == passages[i + 1..];
    var more := SegmentsOf(passages[i].id, groups[i], 0, |segments|);
    SegmentsOfShape(passages[i].id, groups[i], 0, |segments|);
    assert |more| == |Fragments(more)|;
  }

  method NumberGroups<A>(passages: seq<Passage>, groups: seq<seq<Fragment<A>>>)
    returns (r: Result<seq<Segment<A>>, CreateError>)
    requires |groups| == |passages|
    ensures (exists g | 0 <= g < |groups| :: !HasText(groups[g])) ==> r == Err(EmptyText)
    ensures (forall g | 0 <= g < |groups| :: HasText(groups[g])) ==> r == Ok(Number(passages, groups, 0))
  {
    var segments: seq<Segment<A>> := [];
    assert passages[0..] == passages && groups[0..] == groups;
    for i := 0 to |groups|
      invariant forall g | 0 <= g < i :: HasText(groups[g])
      invariant Number(passages, groups, 0) == segments + Number(passages[i..], groups[i..], |segments|)
    {
      var next := AppendSegments(passages[i].id, groups[i], segments);
      if next.Err? {
        return Err(next.error);
      }
      NumberStep(passages, groups, i, segments);
      segments := next.value;
    }
    assert segments + [] == segments;
    return Ok(segments);
  }

  method CreateSegments<A>(passages: seq<Passage>, directed: seq<Fragment<A>>)
    returns (r: Result<seq<Segment<A>>, CreateError>)
    ensures r == Created(passages, directed)
  {
    var grouped := GroupExactFragments(passages, directed);
    if grouped.Err? {
      return Err(Coverage(grouped.error));
    }
    FlattenHasText(grouped.value);
    assert directed[0..] == directed;
    GroupIsCoverage(passages, directed, 0);
    r := NumberGroups(passages, grouped.value);
  }

  function Created<A>(passages: seq<Passage>, directed: seq<Fragment<A>>): Result<seq<Segment<A>>, CreateError> {
    var groups := GroupAll(passages, directed);
    if groups.Err? then Err(Coverage(groups.error))
    else if !HasText(directed) then Err(EmptyText)
    else Ok(Number(passages, groups.value, 0))
  }

  // ---------------------------------------------------------------- what created segments are

  function Fragments<A>(segments: seq<Segment<A>>): seq<Fragment<A>> {
    seq(|segments|, i requires 0 <= i < |segments| => segments[i].fragment)
  }

  ghost predicate NumberedFrom<A>(segments: seq<Segment<A>>, made: nat) {
    forall i | 0 <= i < |segments| :: segments[i].order == made + i + 1
  }

  ghost predicate DistinctIds<A>(segments: seq<Segment<A>>) {
    forall i, j | 0 <= i < j < |segments| :: segments[i].id != segments[j].id
  }

  lemma {:induction false} SegmentsOfShape<A>(passageId: string, group: seq<Fragment<A>>, k: nat, made: nat)
    requires k <= |group|
    ensures var segments := SegmentsOf(passageId, group, k, made);
            && NumberedFrom(segments, made)
            && Fragments(segments) == group[k..]
            && (forall i | 0 <= i < |segments| :: segments[i].id == SegmentId(passageId, k + i + 1))
    decreases |group| - k
  {
    if k < |group| {
      SegmentsOfShape(passageId, group, k + 1, made + 1);
      var rest := SegmentsOf(passageId, group, k + 1, made + 1);
      assert |rest| == |Fragments(rest)|;
      var segments := SegmentsOf(passageId, group, k, made);
      assert forall i | 1 <= i < |segments| :: segments[i] == rest[i - 1];
      assert Fragments(segments) == [group[k]] + Fragments(rest) == group[k..];
    }
  }

  /** Segments are numbered from one, keep the fragments in order and never share an ID. */
  lemma {:induction false} NumberShape<A>(passages: seq<Passage>, groups: seq<seq<Fragment<A>>>, made: nat)
    requires ProperPassages(passages) && |groups| == |passages|
    ensures var segments := Number(passages, groups, made);
            && NumberedFrom(segments, made)
            && Fragments(segments) == Flatten(groups)
            && DistinctIds(segments)
            && (forall i | 0 <= i < |segments| ::
                  exists p | 0 <= p < |passages| :: segments[i].id.passageId == passages[p].id)
    decreases |groups|
  {
    if groups != [] {
      var first := SegmentsOf(passages[0].id, groups[0], 0, made);
      SegmentsOfShape(passages[0].id, groups[0], 0, made);
      assert |first| == |Fragments(first)| == |groups[0]|;
      NumberShape(passages[1..], groups[1..], made + |groups[0]|);
      var rest := Number(passages[1..], groups[1..], made + |groups[0]|);
      var segments := first + rest;
      assert Fragments(segments) == Fragments(first) + Fragments(rest);
      forall i | 0 <= i < |segments|
        ensures segments[i].order == made + i + 1
        ensures exists p | 0 <= p < |passages| :: segments[i].id.passageId == passages[p].id
      {
        if i < |first| {
          assert segments[i].id.passageId == passages[0].id;
        } else {
          var p :| 0 <= p < |passages[1..]| && rest[i - |first|].id.passageId == passages[1..][p].id;
          assert segments[i].id.passageId == passages[p + 1].id;
        }
      }
      forall i, j | 0 <= i < j < |segments| ensures segments[i].id != segments[j].id {
        if j >= |first| && i < |first| {
          var p :| 0 <= p < |passages[1..]| && rest[j - |first|].id.passageId == passages[1..][p].id;
          assert passages[0].id != passages[p + 1].id;
        }
      }
    }
  }

  lemma {:induction false} CoverageSpellsChapter<A>(passages: seq<Passage>, groups: seq<seq<Fragment<A>>>, directed: seq<Fragment<A>>)
    requires ExactCoverage(passages, groups, directed)
    ensures Join(Texts(directed)) == ChapterText(passages)
    decreases |passages|
  {
    if passages != [] {
      assert GroupCovers(groups[0], passages[0]);
      var rest := Flatten(groups[1..]);
      forall i | 0 <= i < |passages| - 1 ensures GroupCovers(groups[1..][i], passages[1..][i]) {
        assert GroupCovers(groups[i + 1], passages[i + 1]);
      }
      CoverageSpellsChapter(passages[1..], groups[1..], rest);
      assert Texts(directed) == Texts(groups[0]) + Texts(rest);
      JoinAppend(Texts(groups[0]), Texts(rest));
    }
  }

  function ChapterText(passages: seq<Passage>): string {
    if passages == [] then "" else passages[0].text + ChapterText(passages[1..])
  }

  lemma CoverageAppend<A>(p1: seq<Passage>, g1: seq<seq<Fragment<A>>>, d1: seq<Fragment<A>>,
                          p2: seq<Passage>, g2: seq<seq<Fragment<A>>>, d2: seq<Fragment<A>>)
    requires ExactCoverage(p1, g1, d1) && ExactCoverage(p2, g2, d2)
    ensures ExactCoverage(p1 + p2, g1 + g2, d1 + d2)
  {
    FlattenAppend(g1, g2);
    forall i | 0 <= i < |p1 + p2| ensures GroupCovers((g1 + g2)[i], (p1 + p2)[i]) {
      if i < |p1| {
        assert GroupCovers(g1[i], p1[i]);
      } else {
        assert GroupCovers(g2[i - |p1|], p2[i - |p1|]);
      }
    }
  }

  // ---------------------------------------------------------------- splitting keeps coverage

  /** Grapheme segmentation: nonempty clusters spelling the text. */
  ghost predicate IsSegmenter(graphemes: string -> seq<string>) {
    forall text :: Splitter.ProperClusters(graphemes(text)) && Join(graphemes(text)) == text
  }

  function Pieces<A>(fragment: Fragment<A>, texts: seq<string>): seq<Fragment<A>> {
    seq(|texts|, i requires 0 <= i < |texts| => fragment.(text := texts[i]))
  }

  function SplitAll<A>(directed: seq<Fragment<A>>, max: nat, graphemes: string -> seq<string>)
    : Result<seq<Fragment<A>>, Splitter.SplitError>
  {
    if directed == [] then Ok([])
    else
      var texts :- Splitter.Split(graphemes(directed[0].text), max);
      var rest :- SplitAll(directed[1..], max, graphemes);
      Ok(Pieces(directed[0], texts) + rest)
  }

  function After<T, E>(made: seq<T>, rest: Result<seq<T>, E>): Result<seq<T>, E> {
    if rest.Err? then rest else Ok(made + rest.value)
  }

  lemma SplitAllStep<A>(directed: seq<Fragment<A>>, i: nat, max: nat, graphemes: string -> seq<string>, made: seq<Fragment<A>>)
    requires i < |directed|
    ensures var texts := Splitter.Split(graphemes(directed[i].text), max);
            After(made, SplitAll(directed[i..], max, graphemes))
            == if texts.Err? then Err(texts.error)
               else After(made + Pieces(directed[i], texts.value), SplitAll(directed[i + 1..], max, graphemes))
  {
    assert directed[i..][0] == directed[i] && directed[i..][1..] == directed[i + 1..];
    var texts := Splitter.Split(graphemes(directed[i].text), max);
    var rest := SplitAll(directed[i + 1..], max, graphemes);
    if texts.Ok? && rest.Ok? {
      var pieces := Pieces(directed[i], texts.value);
      assert made + pieces + rest.value == made + (pieces + rest.value);
    }
  }

  method SplitDirectedSegments<A>(directed: seq<Fragment<A>>, maxCharacters: nat, graphemes: string -> seq<string>)
    returns (r: Result<seq<Fragment<A>>, Splitter.SplitError>)
    requires IsSegmenter(graphemes)
    ensures r == SplitAll(directed, maxCharacters, graphemes)
  {
    var result: seq<Fragment<A>> := [];
    assert directed[0..] == directed;
    assert SplitAll(directed, maxCharacters, graphemes).Ok?
       ==> [] + SplitAll(directed, maxCharacters, graphemes).value == SplitAll(directed, maxCharacters, graphemes).value;
    for i := 0 to |directed|
      invariant SplitAll(directed, maxCharacters, graphemes)
             == After(result, SplitAll(directed[i..], maxCharacters, graphemes))
    {
      var pieces := Splitter.SplitText(directed[i].text, graphemes(directed[i].text), maxCharacters);
      SplitAllStep(directed, i, maxCharacters, graphemes, result);
      if pieces.Err? {
        return Err(pieces.error);
      }
      result := result + Pieces(directed[i], pieces.value);
    }
    assert result + [] == result;
    return Ok(result);
  }

  /** The white-space bound of `Splitter.SplitIsExactPartition`, for every fragment. */
  ghost predicate BlankRunsFit<A>(directed: seq<Fragment<A>>, max: nat, graphemes: string -> seq<string>) {
    forall i | 0 <= i < |directed| :: Splitter.BlankRunsFit(graphemes(directed[i].text), max)
  }

  ghost predicate SpeechReady<A>(fragments: seq<Fragment<A>>, max: nat) {
    forall i | 0 <= i < |fragments| ::
      !Blank(fragments[i].text) && |fragments[i].text| <= max + Splitter.SEPARATOR_OVERSHOOT
  }

  lemma SplitOne<A>(fragment: Fragment<A>, texts: seq<string>, max: nat, graphemes: string -> seq<string>)
    requires IsSegmenter(graphemes)
    requires Splitter.BlankRunsFit(graphemes(fragment.text), max)
    requires Splitter.Split(graphemes(fragment.text), max) == Ok(texts)
    ensures Texts(Pieces(fragment, texts)) == texts
    ensures Join(texts) == fragment.text
    ensures OfPassage(Pieces(fragment, texts), fragment.passageId)
    ensures SpeechReady(Pieces(fragment, texts), max)
  {
    var clusters := graphemes(fragment.text);
    var _ := Splitter.SplitIsExactPartition(clusters, max);
    Splitter.SplitIsRenderable(clusters, max);
    assert forall i | 0 <= i < |texts| :: Pieces(fragment, texts)[i].text == texts[i];
  }

  lemma {:induction false} SplitRun<A>(group: seq<Fragment<A>>, id: string, max: nat, graphemes: string -> seq<string>)
    requires IsSegmenter(graphemes) && OfPassage(group, id) && BlankRunsFit(group, max, graphemes)
    requires SplitAll(group, max, graphemes).Ok?
    ensures var out := SplitAll(group, max, graphemes).value;
            && OfPassage(out, id)
            && Join(Texts(out)) == Join(Texts(group))
            && SpeechReady(out, max)
    decreases |group|
  {
    if group != [] {
      var texts := Splitter.Split(graphemes(group[0].text), max).value;
      SplitOne(group[0], texts, max, graphemes);
      SplitRun(group[1..], id, max, graphemes);
      SplitRunStep(group, texts, SplitAll(group[1..], max, graphemes).value);
    }
  }

  lemma SplitRunStep<A>(group: seq<Fragment<A>>, texts: seq<string>, rest: seq<Fragment<A>>)
    requires group != [] && Texts(Pieces(group[0], texts)) == texts
    requires Join(texts) == group[0].text && Join(Texts(rest)) == Join(Texts(group[1..]))
    ensures Join(Texts(Pieces(group[0], texts) + rest)) == Join(Texts(group))
  {
    assert Texts(Pieces(group[0], texts) + rest) == texts + Texts(rest);
    assert Texts(group) == [group[0].text] + Texts(group[1..]);
    JoinAppend(texts, Texts(rest));
  }

  /** `whole` is refused exactly when a part is, and otherwise is the parts one after the other. */
  ghost predicate Joins<T, E>(whole: Result<seq<T>, E>, first: Result<seq<T>, E>, second: Result<seq<T>, E>) {
    && (whole.Ok? <==> first.Ok? && second.Ok?)
    && (whole.Ok? ==> whole.value == first.value + second.value)
  }

  /** The result of one split fragment. */
  function SplitHead<A>(fragment: Fragment<A>, max: nat, graphemes: string -> seq<string>)
    : Result<seq<Fragment<A>>, Splitter.SplitError>
  {
    var texts := Splitter.Split(graphemes(fragment.text), max);
    if texts.Err? then Err(texts.error) else Ok(Pieces(fragment, texts.value))
  }

  lemma SplitAllCons<A>(directed: seq<Fragment<A>>, max: nat, graphemes: string -> seq<string>)
    requires directed != []
    ensures Joins(SplitAll(directed, max, graphemes), SplitHead(directed[0], max, graphemes),
                  SplitAll(directed[1..], max, graphemes))
  {
  }

  lemma JoinsAssociate<T, E>(head: Result<seq<T>, E>, a: Result<seq<T>, E>, b: Result<seq<T>, E>,
                             ab: Result<seq<T>, E>, first: Result<seq<T>, E>, whole: Result<seq<T>, E>)
    requires Joins(ab, a, b) && Joins(first, head, a) && Joins(whole, head, ab)
    ensures Joins(whole, first, b)
  {
    if whole.Ok? {
      assert head.value + (a.value + b.value) == (head.value + a.value) + b.value;
    }
  }

  lemma {:induction false} SplitAllAppend<A>(a: seq<Fragment<A>>, b: seq<Fragment<A>>, max: nat, graphemes: string -> seq<string>)
    ensures Joins(SplitAll(a + b, max, graphemes), SplitAll(a, max, graphemes), SplitAll(b, max, graphemes))
    decreases |a|
  {
    if a == [] {
      assert a + b == b;
    } else {
      SplitAllAppend(a[1..], b, max, graphemes);
      assert (a + b)[1..] == a[1..] + b && (a + b)[0] == a[0];
      SplitAllCons(a + b, max, graphemes);
      SplitAllCons(a, max, graphemes);
      JoinsAssociate(SplitHead(a[0], max, graphemes), SplitAll(a[1..], max, graphemes), SplitAll(b, max, graphemes),
                     SplitAll(a[1..] + b, max, graphemes), SplitAll(a, max, graphemes), SplitAll(a + b, max, graphemes));
    }
  }

  /** Splitting a covering list gives a covering list, or the splitter refuses. */
  lemma {:induction false} SplitKeepsCoverage<A>(passages: seq<Passage>, groups: seq<seq<Fragment<A>>>,
                                                 directed: seq<Fragment<A>>, max: nat, graphemes: string -> seq<string>)
    returns (split: seq<seq<Fragment<A>>>)
    requires ProperPassages(passages) && ExactCoverage(passages, groups, directed)
    requires IsSegmenter(graphemes) && BlankRunsFit(directed, max, graphemes)
    requires SplitAll(directed, max, graphemes).Ok?
    ensures ExactCoverage(passages, split, SplitAll(directed, max, graphemes).value)
    ensures SpeechReady(SplitAll(directed, max, graphemes).value, max)
    decreases |passages|
  {
    if passages == [] {
      split := [];
    } else {
      var rest := Flatten(groups[1..]);
      assert directed == groups[0] + rest;
      assert GroupCovers(groups[0], passages[0]);
      assert forall i | 0 <= i < |groups[0]| :: groups[0][i] == directed[i];
      assert forall i | 0 <= i < |rest| :: rest[i] == directed[|groups[0]| + i];
      forall i | 0 <= i < |passages| - 1 ensures GroupCovers(groups[1..][i], passages[1..][i]) {
        assert GroupCovers(groups[i + 1], passages[i + 1]);
      }
      SplitAllAppend(groups[0], rest, max, graphemes);
      SplitRun(groups[0], passages[0].id, max, graphemes);
      var tail := SplitKeepsCoverage(passages[1..], groups[1..], rest, max, graphemes);
      var head := SplitAll(groups[0], max, graphemes).value;
      split := [head] + tail;
      assert split[1..] == tail;
      assert GroupCovers(head, passages[0]);
      forall i | 0 <= i < |passages| ensures GroupCovers(split[i], passages[i]) {
        if i > 0 {
          assert GroupCovers(tail[i - 1], passages[1..][i - 1]);
        }
      }
    }
  }

  /**
   * From fragments covering the chapter, splitting either refuses or leads to segments without a
   * coverage error: numbered 1..n, with distinct IDs, spelling the chapter.
   */
  lemma CoveredChapterMakesSegments<A>(passages: seq<Passage>, groups: seq<seq<Fragment<A>>>,
                                       directed: seq<Fragment<A>>, max: nat, graphemes: string -> seq<string>)
    requires ProperPassages(passages) && passages != []
    requires ExactCoverage(passages, groups, directed)
    requires IsSegmenter(graphemes) && BlankRunsFit(directed, max, graphemes)
    ensures var split := SplitAll(directed, max, graphemes);
            split.Ok? ==>
              && Created(passages, split.value).Ok?
              && var segments := Created(passages, split.value).value;
                 && NumberedFrom(segments, 0)
                 && DistinctIds(segments)
                 && Fragments(segments) == split.value
                 && SpeechReady(split.value, max)
                 && Join(Texts(split.value)) == ChapterText(passages)
  {
    var split := SplitAll(directed, max, graphemes);
    if split.Ok? {
      var after := SplitKeepsCoverage(passages, groups, directed, max, graphemes);
      GroupingAcceptsIff(passages, split.value);
      var found := GroupAll(passages, split.value).value;
      NumberShape(passages, found, 0);
      CoverageSpellsChapter(passages, found, split.value);
    }
  }
}
