/** From the windows of one chapter to its speech segments: the whole exact-text chain. */
module DirectedChapter {
  import opened Wrappers
  import opened Text
  import opened SourceCoverage
  import opened AdaptiveDirection
  import Splitter
  import AcceptedAnswers
  import Fidelity

  /** The repaired answer of one window passes validation against the window's own passages. */
  predicate WindowIsFaithful<A>(passages: seq<Passage>, window: Window, answer: seq<Fidelity.Wire<A>>) {
    window.start <= window.end <= |passages| &&
    var part := passages[window.start..window.end];
    Fidelity.Faithful(part, Fidelity.RepairAll(part, answer))
  }

  ghost predicate WindowsAreFaithful<A>(passages: seq<Passage>, windows: seq<Window>, answers: seq<seq<Fidelity.Wire<A>>>) {
    |answers| == |windows| && forall k | 0 <= k < |windows| :: WindowIsFaithful(passages, windows[k], answers[k])
  }

  /** The validated fragments of one window. */
  function WindowFragments<A>(passages: seq<Passage>, window: Window, answer: seq<Fidelity.Wire<A>>): seq<Fragment<A>>
    requires WindowIsFaithful(passages, window, answer)
  {
    var part := passages[window.start..window.end];
    Fidelity.Directed(Fidelity.AllRanges(part, Fidelity.RepairAll(part, answer)))
  }

  /** The validated fragments of every window, in the order the windows were answered. */
  function Stitched<A>(passages: seq<Passage>, windows: seq<Window>, answers: seq<seq<Fidelity.Wire<A>>>): seq<Fragment<A>>
    requires WindowsAreFaithful(passages, windows, answers)
    decreases |windows|
  {
    if windows == [] then [] else
      var n := |windows| - 1;
      Stitched(passages, windows[..n], answers[..n]) + WindowFragments(passages, windows[n], answers[n])
  }

  /** Stitching tiling windows covers the passages before `end`, passage by passage. */
  lemma {:induction false} StitchedCovers<A>(passages: seq<Passage>, windows: seq<Window>,
                                             answers: seq<seq<Fidelity.Wire<A>>>, end: nat)
    returns (groups: seq<seq<Fragment<A>>>)
    requires Tiles(windows, end) && end <= |passages| && WindowsAreFaithful(passages, windows, answers)
    ensures ExactCoverage(passages[..end], groups, Stitched(passages, windows, answers))
    decreases |windows|
  {
    if windows == [] {
      groups := [];
    } else {
      var n := |windows| - 1;
      var last := windows[n];
      var before := StitchedCovers(passages, windows[..n], answers[..n], last.start);
      assert WindowIsFaithful(passages, last, answers[n]);
      var part := passages[last.start..last.end];
      var within := Fidelity.AcceptedCovers(part, Fidelity.RepairAll(part, answers[n]));
      CoverageAppend(passages[..last.start], before, Stitched(passages, windows[..n], answers[..n]),
                     part, within, WindowFragments(passages, last, answers[n]));
      assert passages[..last.start] + part == passages[..end];
      groups := before + within;
    }
  }

  /** What the director said about the fragments: their passages and annotations, in order. */
  function Labels<A>(fragments: seq<Fragment<A>>): seq<(string, A)> {
    seq(|fragments|, i requires 0 <= i < |fragments| => (fragments[i].passageId, fragments[i].annotation))
  }

  function SentLabels<A>(answers: seq<seq<Fidelity.Wire<A>>>): seq<(string, A)> {
    if answers == [] then [] else
      var last := answers[|answers| - 1];
      SentLabels(answers[..|answers| - 1]) + seq(|last|, i requires 0 <= i < |last| => (last[i].passageId, last[i].annotation))
  }

  lemma WindowKeepsLabels<A>(passages: seq<Passage>, window: Window, answer: seq<Fidelity.Wire<A>>)
    requires ProperPassages(passages) && WindowIsFaithful(passages, window, answer)
    ensures Labels(WindowFragments(passages, window, answer))
         == seq(|answer|, i requires 0 <= i < |answer| => (answer[i].passageId, answer[i].annotation))
  {
    var part := passages[window.start..window.end];
    Fidelity.RepairIsExactOrAbsent(part, answer);
    AcceptedAnswers.AcceptedIsKept(part, Fidelity.RepairAll(part, answer));
  }

  /** Stitching keeps every fragment of every answer under its passage and with its annotation, in order. */
  lemma {:induction false} StitchedKeepsLabels<A>(passages: seq<Passage>, windows: seq<Window>,
                                                   answers: seq<seq<Fidelity.Wire<A>>>)
    requires ProperPassages(passages) && WindowsAreFaithful(passages, windows, answers)
    ensures Labels(Stitched(passages, windows, answers)) == SentLabels(answers)
    decreases |windows|
  {
    if windows != [] {
      var n := |windows| - 1;
      assert WindowIsFaithful(passages, windows[n], answers[n]);
      StitchedKeepsLabels(passages, windows[..n], answers[..n]);
      WindowKeepsLabels(passages, windows[n], answers[n]);
      LabelsAppend(Stitched(passages, windows[..n], answers[..n]), WindowFragments(passages, windows[n], answers[n]));
    }
  }

  lemma LabelsAppend<A>(a: seq<Fragment<A>>, b: seq<Fragment<A>>)
    ensures Labels(a + b) == Labels(a) + Labels(b)
  {
  }

  /**
   * When the adaptive loop stitched the chapter and every window's repaired answer was accepted,
   * making the segments can only be refused by the splitter; otherwise they are numbered from one,
   * have distinct IDs, are short enough to speak and spell the chapter.
   */
  lemma DirectedChapterIsExact<A>(passages: seq<Passage>, windows: seq<Window>, answers: seq<seq<Fidelity.Wire<A>>>,
                                  max: nat, graphemes: string -> seq<string>)
    requires ProperPassages(passages) && passages != []
    requires Tiles(windows, |passages|) && WindowsAreFaithful(passages, windows, answers)
    requires IsSegmenter(graphemes) && BlankRunsFit(Stitched(passages, windows, answers), max, graphemes)
    ensures Join(Texts(Stitched(passages, windows, answers))) == ChapterText(passages)
    ensures var split := SplitAll(Stitched(passages, windows, answers), max, graphemes);
            split.Ok? ==>
              && Created(passages, split.value).Ok?
              && var segments := Created(passages, split.value).value;
                 && NumberedFrom(segments, 0)
                 && DistinctIds(segments)
                 && Fragments(segments) == split.value
                 && SpeechReady(split.value, max)
                 && Join(Texts(split.value)) == ChapterText(passages)
  {
    var groups := StitchedCovers(passages, windows, answers, |passages|);
    assert passages[..|passages|] == passages;
    CoverageSpellsChapter(passages, groups, Stitched(passages, windows, answers));
    CoveredChapterMakesSegments(passages, groups, Stitched(passages, windows, answers), max, graphemes);
  }

  // ---------------------------------------------------------------- a bound known before direction

  /** Every white-space run of the text fits the budget. */
  ghost predicate SpacesFit(text: string, max: nat) {
    forall lo, hi | 0 <= lo <= hi <= |text| && Blank(text[lo..hi]) :: hi - lo <= max
  }

  lemma SpacesFitParts(a: string, b: string, max: nat)
    requires SpacesFit(a + b, max)
    ensures SpacesFit(a, max) && SpacesFit(b, max)
  {
    var both := a + b;
    forall lo, hi | 0 <= lo <= hi <= |a| && Blank(a[lo..hi]) ensures hi - lo <= max {
      assert both[lo..hi] == a[lo..hi];
    }
    forall lo, hi | 0 <= lo <= hi <= |b| && Blank(b[lo..hi]) ensures hi - lo <= max {
      assert both[|a| + lo..|a| + hi] == b[lo..hi];
    }
  }

  /** White-space runs of clusters are white-space runs of the text they spell. */
  lemma ClustersFit(clusters: seq<string>, max: nat)
    requires SpacesFit(Join(clusters), max)
    ensures Splitter.BlankRunsFit(clusters, max)
  {
    forall lo, hi | 0 <= lo <= hi <= |clusters| && Splitter.BlankRun(clusters, lo, hi)
      ensures Splitter.Size(clusters, lo, hi) <= max
    {
      var before, run, after := Join(clusters[..lo]), Join(clusters[lo..hi]), Join(clusters[hi..]);
      JoinSplit(clusters, 0, lo, |clusters|);
      JoinSplit(clusters, lo, hi, |clusters|);
      assert clusters[0..lo] == clusters[..lo] && clusters[0..|clusters|] == clusters && clusters[hi..|clusters|] == clusters[hi..];
      assert Join(clusters) == before + (run + after);
      SpacesFitParts(before, run + after, max);
      SpacesFitParts(run, after, max);
      Splitter.BlankSlice(clusters, lo, hi);
      Splitter.SizeIsLength(clusters, lo, hi);
      assert run[0..|run|] == run;
    }
  }

  lemma {:induction false} FragmentsFit<A>(group: seq<Fragment<A>>, max: nat)
    requires SpacesFit(Join(Texts(group)), max)
    ensures forall i | 0 <= i < |group| :: SpacesFit(group[i].text, max)
  {
    if group != [] {
      assert Texts(group)[1..] == Texts(group[1..]);
      SpacesFitParts(group[0].text, Join(Texts(group[1..])), max);
      FragmentsFit(group[1..], max);
      assert forall i | 1 <= i < |group| :: group[i] == group[1..][i - 1];
    }
  }

  lemma {:induction false} CoveringFragmentsFit<A>(passages: seq<Passage>, groups: seq<seq<Fragment<A>>>,
                                                   directed: seq<Fragment<A>>, max: nat)
    requires ExactCoverage(passages, groups, directed)
    requires forall i | 0 <= i < |passages| :: SpacesFit(passages[i].text, max)
    ensures forall i | 0 <= i < |directed| :: SpacesFit(directed[i].text, max)
    decreases |passages|
  {
    if passages != [] {
      var rest := Flatten(groups[1..]);
      assert directed == groups[0] + rest && GroupCovers(groups[0], passages[0]);
      forall i | 0 <= i < |passages| - 1 ensures GroupCovers(groups[1..][i], passages[1..][i]) {
        assert GroupCovers(groups[i + 1], passages[i + 1]);
      }
      FragmentsFit(groups[0], max);
      CoveringFragmentsFit(passages[1..], groups[1..], rest, max);
    }
  }

  /** The same, under a bound on the white space of the chapter that can be checked before any direction. */
  lemma BoundedChapterIsExact<A>(passages: seq<Passage>, windows: seq<Window>, answers: seq<seq<Fidelity.Wire<A>>>,
                                 max: nat, graphemes: string -> seq<string>)
    requires ProperPassages(passages) && passages != [] && IsSegmenter(graphemes)
    requires forall i | 0 <= i < |passages| :: SpacesFit(passages[i].text, max)
    requires Tiles(windows, |passages|) && WindowsAreFaithful(passages, windows, answers)
    ensures var split := SplitAll(Stitched(passages, windows, answers), max, graphemes);
            split.Ok? ==>
              && Created(passages, split.value).Ok?
              && var segments := Created(passages, split.value).value;
                 && NumberedFrom(segments, 0) && DistinctIds(segments) && Fragments(segments) == split.value
                 && SpeechReady(split.value, max) && Join(Texts(split.value)) == ChapterText(passages)
  {
    var directed := Stitched(passages, windows, answers);
    var groups := StitchedCovers(passages, windows, answers, |passages|);
    assert passages[..|passages|] == passages;
    CoveringFragmentsFit(passages, groups, directed, max);
    forall i | 0 <= i < |directed| ensures Splitter.BlankRunsFit(graphemes(directed[i].text), max) {
      ClustersFit(graphemes(directed[i].text), max);
    }
    DirectedChapterIsExact(passages, windows, answers, max, graphemes);
  }
}
