/**
 * Splitting a directed fragment into render-sized pieces
 * (packages/application/src/split-directed-segments.ts).
 *
 * Grapheme segmentation is a parameter: `clusters` is any list of nonempty clusters. A code point
 * is a `char`, so `|s|` is the source's `codePointLength(s)`.
 */
module Splitter {
  import opened Wrappers
  import opened Text

  const SEPARATOR_OVERSHOOT := 8

  const SENTENCE_TERMINATORS: set<string> := {".", "!", "?", "\U{2026}", "\U{3002}"}
  const CLAUSE_TERMINATORS: set<string> := {",", ";", ":", "\U{2014}", "\U{2013}", "\U{3001}"}
  const CLOSING_PUNCTUATION: set<string> :=
    {"\"", "\U{201C}", "\U{2019}", "'", ")", "]", "}", "\U{BB}", "\U{300D}", "\U{300F}"}

  datatype Tier = Sentence | Clause | Word

  datatype SplitError =
    | ClusterOverBudget
    | NoBoundary
    | SeparatorTooLong
    | WhitespaceOnly
    | TrailingSeparatorTooLong

  predicate ProperClusters(clusters: seq<string>) {
    forall i | 0 <= i < |clusters| :: clusters[i] != ""
  }

  // ---------------------------------------------------------------- boundaries

  predicate Triggers(cluster: string) {
    !Spaced(cluster) && cluster !in CLOSING_PUNCTUATION
  }

  function TierOf(cluster: string): Tier {
    if cluster in SENTENCE_TERMINATORS then Sentence
    else if cluster in CLAUSE_TERMINATORS then Clause
    else Word
  }

  /** Tier named by the last triggering cluster before `end`. */
  function TierBefore(clusters: seq<string>, end: nat): Tier
    requires end <= |clusters|
  {
    if end == 0 then Word
    else if Triggers(clusters[end - 1]) then TierOf(clusters[end - 1])
    else TierBefore(clusters, end - 1)
  }

  predicate AtWordBoundary(clusters: seq<string>, end: nat)
    requires 0 < end <= |clusters|
  {
    Spaced(clusters[end - 1]) || (end < |clusters| && Spaced(clusters[end]))
  }

  predicate IsBoundary(clusters: seq<string>, end: nat, tier: Tier)
    requires 0 < end <= |clusters|
  {
    AtWordBoundary(clusters, end) && TierBefore(clusters, end) == tier
  }

  method ClassifyBoundary(clusters: seq<string>, end: nat) returns (tier: Option<Tier>)
    ensures 0 < end <= |clusters| && AtWordBoundary(clusters, end)
            ==> tier == Some(TierBefore(clusters, end))
    ensures !(0 < end <= |clusters| && AtWordBoundary(clusters, end)) ==> tier == None
  {
    if end == 0 || end > |clusters| {
      return None;
    }
    if !AtWordBoundary(clusters, end) {
      return None;
    }
    var k: nat := end;
    while k > 0
      invariant k <= end
      invariant TierBefore(clusters, k) == TierBefore(clusters, end)
    {
      k := k - 1;
      if Triggers(clusters[k]) {
        return Some(TierOf(clusters[k]));
      }
    }
    return Some(Word);
  }

  /** A terminator of these precedes the cut, with only white space and closing punctuation between. */
  predicate EndsWith(clusters: seq<string>, end: nat, terminators: set<string>)
    requires end <= |clusters|
  {
    exists k | 0 <= k < end :: clusters[k] in terminators
      && forall j | k < j < end :: Spaced(clusters[j]) || clusters[j] in CLOSING_PUNCTUATION
  }

  lemma TerminatorsTrigger(cluster: string)
    requires cluster in SENTENCE_TERMINATORS || cluster in CLAUSE_TERMINATORS
    ensures Triggers(cluster) && !(cluster in SENTENCE_TERMINATORS && cluster in CLAUSE_TERMINATORS)
  {
  }

  /** The tier of a cut is decided by the text before it, behind white space and closing punctuation. */
  lemma {:induction false} TierIff(clusters: seq<string>, end: nat)
    requires end <= |clusters|
    ensures TierBefore(clusters, end) == Sentence <==> EndsWith(clusters, end, SENTENCE_TERMINATORS)
    ensures TierBefore(clusters, end) == Clause <==> EndsWith(clusters, end, CLAUSE_TERMINATORS)
  {
    if end > 0 {
      var last := clusters[end - 1];
      TierIff(clusters, end - 1);
      if last in SENTENCE_TERMINATORS || last in CLAUSE_TERMINATORS {
        TerminatorsTrigger(last);
      }
      EndsWithStep(clusters, end, SENTENCE_TERMINATORS);
      EndsWithStep(clusters, end, CLAUSE_TERMINATORS);
    }
  }

  lemma EndsWithStep(clusters: seq<string>, end: nat, terminators: set<string>)
    requires 0 < end <= |clusters|
    ensures EndsWith(clusters, end, terminators)
       <==> clusters[end - 1] in terminators
            || ((Spaced(clusters[end - 1]) || clusters[end - 1] in CLOSING_PUNCTUATION) && EndsWith(clusters, end - 1, terminators))
  {
    if EndsWith(clusters, end, terminators) && clusters[end - 1] !in terminators {
      var k :| 0 <= k < end && clusters[k] in terminators
            && forall j | k < j < end :: Spaced(clusters[j]) || clusters[j] in CLOSING_PUNCTUATION;
    }
  }

  function Latest(clusters: seq<string>, start: nat, maxEnd: nat, tier: Tier): (end: Option<nat>)
    requires start <= maxEnd <= |clusters|
    ensures end.Some? ==> start < end.value <= maxEnd && IsBoundary(clusters, end.value, tier)
    ensures end.Some? ==> forall e | end.value < e <= maxEnd :: !IsBoundary(clusters, e, tier)
    ensures end.None? ==> forall e | start < e <= maxEnd :: !IsBoundary(clusters, e, tier)
    decreases maxEnd - start
  {
    if maxEnd == start then None
    else if IsBoundary(clusters, maxEnd, tier) then Some(maxEnd)
    else Latest(clusters, start, maxEnd - 1, tier)
  }

  method LatestBoundary(clusters: seq<string>, start: nat, maxEnd: nat, tier: Tier)
    returns (found: Option<nat>)
    requires start <= maxEnd <= |clusters|
    ensures found == Latest(clusters, start, maxEnd, tier)
  {
    var end := maxEnd;
    while end > start
      invariant start <= end <= maxEnd
      invariant Latest(clusters, start, end, tier) == Latest(clusters, start, maxEnd, tier)
    {
      var kind := ClassifyBoundary(clusters, end);
      if kind == Some(tier) {
        return Some(end);
      }
      end := end - 1;
    }
    return None;
  }

  // ---------------------------------------------------------------- choosing one cut

  function Size(clusters: seq<string>, lo: nat, hi: nat): nat
    requires lo <= hi <= |clusters|
    decreases hi - lo
  {
    if lo == hi then 0 else |clusters[lo]| + Size(clusters, lo + 1, hi)
  }

  /** Largest end whose piece from `from` fits `budget`. */
  function FitEnd(clusters: seq<string>, from: nat, budget: nat): (end: nat)
    requires from <= |clusters|
    ensures from <= end <= |clusters|
    ensures Size(clusters, from, end) <= budget
    decreases |clusters| - from
  {
    if from < |clusters| && |clusters[from]| <= budget
    then FitEnd(clusters, from + 1, budget - |clusters[from]|)
    else from
  }

  /** The end of the piece that begins at `start`. */
  function CutAfter(clusters: seq<string>, max: nat, start: nat): (r: Result<nat, SplitError>)
    requires start < |clusters|
    ensures r.Ok? ==> start < r.value <= |clusters| && Size(clusters, start, r.value) <= max
    ensures r.Ok? && r.value < |clusters| ==> AtWordBoundary(clusters, r.value)
  {
    if Size(clusters, start, |clusters|) <= max then Ok(|clusters|)
    else
      var maxEnd := FitEnd(clusters, start, max);
      if maxEnd == start then Err(ClusterOverBudget)
      else
        var best := PreferredEnd(clusters, start, maxEnd);
        if best.None? then Err(NoBoundary)
        else
          SizePrefix(clusters, start, best.value, maxEnd);
          Ok(best.value)
  }

  function PreferredEnd(clusters: seq<string>, start: nat, maxEnd: nat): (end: Option<nat>)
    requires start <= maxEnd <= |clusters|
    ensures end.Some? ==> start < end.value <= maxEnd && AtWordBoundary(clusters, end.value)
    ensures end.None? ==> forall e | start < e <= maxEnd :: !AtWordBoundary(clusters, e)
  {
    var sentence := Latest(clusters, start, maxEnd, Sentence);
    var clause := Latest(clusters, start, maxEnd, Clause);
    var word := Latest(clusters, start, maxEnd, Word);
    assert forall e | start < e <= maxEnd && AtWordBoundary(clusters, e)
      :: IsBoundary(clusters, e, TierBefore(clusters, e));
    if sentence.Some? then sentence else if clause.Some? then clause else word
  }

  lemma {:induction false} SizeSplit(clusters: seq<string>, lo: nat, mid: nat, hi: nat)
    requires lo <= mid <= hi <= |clusters|
    ensures Size(clusters, lo, hi) == Size(clusters, lo, mid) + Size(clusters, mid, hi)
    decreases mid - lo
  {
    if lo < mid {
      SizeSplit(clusters, lo + 1, mid, hi);
    }
  }

  lemma SizePrefix(clusters: seq<string>, lo: nat, mid: nat, hi: nat)
    requires lo <= mid <= hi <= |clusters|
    ensures Size(clusters, lo, mid) <= Size(clusters, lo, hi)
  {
    SizeSplit(clusters, lo, mid, hi);
  }

  lemma {:induction false} SizeIsLength(clusters: seq<string>, lo: nat, hi: nat)
    requires lo <= hi <= |clusters|
    ensures Size(clusters, lo, hi) == |Join(clusters[lo..hi])|
    decreases hi - lo
  {
    if lo < hi {
      SizeIsLength(clusters, lo + 1, hi);
      assert clusters[lo..hi][1..] == clusters[lo + 1..hi];
    }
  }

  lemma {:induction false} FitEndIsLargest(clusters: seq<string>, from: nat, budget: nat)
    requires from <= |clusters|
    ensures var end := FitEnd(clusters, from, budget);
            end < |clusters| ==> Size(clusters, from, end + 1) > budget
    decreases |clusters| - from
  {
    if from < |clusters| {
      if |clusters[from]| <= budget {
        FitEndIsLargest(clusters, from + 1, budget - |clusters[from]|);
      } else {
        assert Size(clusters, from, from + 1) == |clusters[from]| + Size(clusters, from + 1, from + 1);
      }
    }
  }

  /** The cut is a boundary of this kind, within reach of `start`. */
  predicate Reachable(clusters: seq<string>, max: nat, start: nat, end: nat) {
    start < end <= |clusters| && Size(clusters, start, end) <= max && AtWordBoundary(clusters, end)
  }

  lemma ReachIsFit(clusters: seq<string>, max: nat, start: nat, end: nat)
    requires start < |clusters| && start < end <= |clusters|
    ensures Size(clusters, start, end) <= max <==> end <= FitEnd(clusters, start, max)
  {
    if end <= FitEnd(clusters, start, max) {
      SizePrefix(clusters, start, end, FitEnd(clusters, start, max));
    } else {
      FitEndIsLargest(clusters, start, max);
      SizePrefix(clusters, start, FitEnd(clusters, start, max) + 1, end);
    }
  }

  /** Sentence ends come before clause ends, and those before other white space. */
  function Rank(clusters: seq<string>, end: nat): nat
    requires end <= |clusters|
  {
    if EndsWith(clusters, end, SENTENCE_TERMINATORS) then 2 else if EndsWith(clusters, end, CLAUSE_TERMINATORS) then 1 else 0
  }

  lemma RankIsTier(clusters: seq<string>, end: nat)
    requires end <= |clusters|
    ensures Rank(clusters, end) == match TierBefore(clusters, end) case Sentence => 2 case Clause => 1 case Word => 0
  {
    TierIff(clusters, end);
  }

  /** The chosen cut is the last of the best tier among all boundaries up to `maxEnd`. */
  lemma PreferredIsBest(clusters: seq<string>, start: nat, maxEnd: nat, e: nat)
    requires start < e <= maxEnd <= |clusters| && AtWordBoundary(clusters, e)
    ensures PreferredEnd(clusters, start, maxEnd).Some?
    ensures var end := PreferredEnd(clusters, start, maxEnd).value;
            Rank(clusters, e) < Rank(clusters, end) || (Rank(clusters, e) == Rank(clusters, end) && e <= end)
  {
    RankIsTier(clusters, e);
    assert IsBoundary(clusters, e, TierBefore(clusters, e));
    RankIsTier(clusters, PreferredEnd(clusters, start, maxEnd).value);
  }

  /**
   * Text that does not fit is cut behind the last sentence that fits, without one behind the last clause,
   * and only without either at the last white space.
   */
  lemma CutIsPreferred(clusters: seq<string>, max: nat, start: nat, end: nat)
    requires start < |clusters| && CutAfter(clusters, max, start) == Ok(end) && Size(clusters, start, |clusters|) > max
    ensures Reachable(clusters, max, start, end)
    ensures forall e: nat | Reachable(clusters, max, start, e) ::
              Rank(clusters, e) < Rank(clusters, end) || (Rank(clusters, e) == Rank(clusters, end) && e <= end)
  {
    forall e: nat | Reachable(clusters, max, start, e)
      ensures Rank(clusters, e) < Rank(clusters, end) || (Rank(clusters, e) == Rank(clusters, end) && e <= end)
    {
      ReachIsFit(clusters, max, start, e);
      PreferredIsBest(clusters, start, FitEnd(clusters, start, max), e);
    }
  }

  // ---------------------------------------------------------------- the cut list

  function Ends(clusters: seq<string>, max: nat, start: nat): Result<seq<nat>, SplitError>
    requires start <= |clusters|
    decreases |clusters| - start
  {
    if start == |clusters| then Ok([])
    else
      var end :- CutAfter(clusters, max, start);
      var rest :- Ends(clusters, max, end);
      Ok([end] + rest)
  }

  function Slices(clusters: seq<string>, start: nat, ends: seq<nat>): seq<string>
    requires Ascending(clusters, start, ends)
    decreases |ends|
  {
    if ends == [] then []
    else [Join(clusters[start..ends[0]])] + Slices(clusters, ends[0], ends[1..])
  }

  /** `ends` cuts `clusters[start..]` into nonempty contiguous ranges. */
  predicate Ascending(clusters: seq<string>, start: nat, ends: seq<nat>)
    decreases |ends|
  {
    if ends == [] then start <= |clusters|
    else start < ends[0] <= |clusters| && Ascending(clusters, ends[0], ends[1..])
  }

  lemma {:induction false} EndsAscend(clusters: seq<string>, max: nat, start: nat)
    requires start <= |clusters|
    ensures var r := Ends(clusters, max, start);
            r.Ok? ==> Ascending(clusters, start, r.value)
    decreases |clusters| - start
  {
    if start < |clusters| {
      var cut := CutAfter(clusters, max, start);
      if cut.Ok? {
        EndsAscend(clusters, max, cut.value);
      }
    }
  }

  // ---------------------------------------------------------------- when the cut loop succeeds

  predicate WordRun(clusters: seq<string>, lo: nat, hi: nat)
    requires lo <= hi <= |clusters|
  {
    forall i | lo <= i < hi :: !Spaced(clusters[i])
  }

  /** Every cluster, and every run free of white space, fits the budget. */
  ghost predicate Splittable(clusters: seq<string>, max: nat, start: nat)
    requires start <= |clusters|
  {
    && (forall i | start <= i < |clusters| :: |clusters[i]| <= max)
    && (forall lo, hi | start <= lo <= hi <= |clusters| && WordRun(clusters, lo, hi)
          :: Size(clusters, lo, hi) <= max)
  }

  lemma NoBoundaryIsWordRun(clusters: seq<string>, start: nat, maxEnd: nat)
    requires start < maxEnd < |clusters|
    requires forall e | start < e <= maxEnd :: !AtWordBoundary(clusters, e)
    ensures WordRun(clusters, start, maxEnd + 1)
  {
    forall i | start <= i <= maxEnd ensures !Spaced(clusters[i]) {
      assert !AtWordBoundary(clusters, if i == start then i + 1 else i);
    }
  }

  lemma CutAfterSucceeds(clusters: seq<string>, max: nat, start: nat)
    requires start < |clusters| && Splittable(clusters, max, start)
    ensures CutAfter(clusters, max, start).Ok?
  {
    if Size(clusters, start, |clusters|) > max {
      var maxEnd := FitEnd(clusters, start, max);
      FitEndIsLargest(clusters, start, max);
      assert |clusters[start]| <= max;
      assert start < maxEnd < |clusters|;
      if PreferredEnd(clusters, start, maxEnd).None? {
        NoBoundaryIsWordRun(clusters, start, maxEnd);
      }
    }
  }

  lemma {:induction false} RunWithinPiece(clusters: seq<string>, max: nat, start: nat, end: nat, lo: nat, hi: nat)
    requires start < end <= |clusters| && start <= lo <= hi <= |clusters|
    requires Size(clusters, start, end) <= max
    requires end < |clusters| ==> AtWordBoundary(clusters, end)
    requires WordRun(clusters, lo, hi) && lo < end
    ensures Size(clusters, lo, hi) <= max
  {
    assert hi <= end;
    SizeSplit(clusters, start, lo, end);
    SizeSplit(clusters, lo, hi, end);
  }

  /** The cut loop ends without refusing exactly when the text from `start` on is splittable. */
  lemma {:induction false} CutLoopSucceedsIff(clusters: seq<string>, max: nat, start: nat)
    requires start <= |clusters|
    ensures Ends(clusters, max, start).Ok? <==> Splittable(clusters, max, start)
    decreases |clusters| - start
  {
    if start == |clusters| {
      return;
    }
    if Splittable(clusters, max, start) {
      CutAfterSucceeds(clusters, max, start);
    }
    var cut := CutAfter(clusters, max, start);
    if cut.Err? {
      return;
    }
    CutLoopSucceedsIff(clusters, max, cut.value);
    if Splittable(clusters, max, cut.value) {
      forall i | start <= i < |clusters| ensures |clusters[i]| <= max {
        if i < cut.value {
          SizeSplit(clusters, start, i, cut.value);
          assert Size(clusters, i, cut.value) == |clusters[i]| + Size(clusters, i + 1, cut.value);
        }
      }
      forall lo, hi | start <= lo <= hi <= |clusters| && WordRun(clusters, lo, hi)
        ensures Size(clusters, lo, hi) <= max
      {
        if lo < cut.value {
          RunWithinPiece(clusters, max, start, cut.value, lo, hi);
        }
      }
    }
  }

  // ---------------------------------------------------------------- orphan separators

  function LastOf(attached: seq<string>): string
    requires attached != []
  {
    attached[|attached| - 1]
  }

  function ExtendLast(attached: seq<string>, tail: string): seq<string>
    requires attached != []
  {
    attached[|attached| - 1 := LastOf(attached) + tail]
  }

  /** The rest of `attachOrphanSeparators` from a given loop state. */
  function Attach(pieces: seq<string>, ceiling: nat, attached: seq<string>, pending: string)
    : Result<seq<string>, SplitError>
    decreases |pieces|
  {
    if pieces == [] then
      if pending == "" then Ok(attached)
      else if attached == [] then Err(WhitespaceOnly)
      else if |LastOf(attached)| + |pending| > ceiling then Err(TrailingSeparatorTooLong)
      else Ok(ExtendLast(attached, pending))
    else if Blank(pieces[0]) then
      if attached != [] && |LastOf(attached)| + |pieces[0]| <= ceiling
      then Attach(pieces[1..], ceiling, ExtendLast(attached, pieces[0]), pending)
      else Attach(pieces[1..], ceiling, attached, pending + pieces[0])
    else if |pending + pieces[0]| > ceiling then Err(SeparatorTooLong)
    else Attach(pieces[1..], ceiling, attached + [pending + pieces[0]], "")
  }

  method AttachOrphanSeparators(pieces: seq<string>, maxCharacters: nat)
    returns (r: Result<seq<string>, SplitError>)
    ensures r == Attach(pieces, maxCharacters + SEPARATOR_OVERSHOOT, [], "")
  {
    var ceiling := maxCharacters + SEPARATOR_OVERSHOOT;
    var attached: seq<string> := [];
    var pendingSeparator := "";
    assert pieces[0..] == pieces;
    for i := 0 to |pieces|
      invariant Attach(pieces[i..], ceiling, attached, pendingSeparator)
             == Attach(pieces, ceiling, [], "")
    {
      var piece := pieces[i];
      assert pieces[i..][0] == piece && pieces[i..][1..] == pieces[i + 1..];
      if Blank(piece) {
        if attached != [] && |LastOf(attached)| + |piece| <= ceiling {
          attached := attached[|attached| - 1 := LastOf(attached) + piece];
        } else {
          pendingSeparator := pendingSeparator + piece;
        }
      } else {
        var merged := pendingSeparator + piece;
        if |merged| > ceiling {
          return Err(SeparatorTooLong);
        }
        attached := attached + [merged];
        pendingSeparator := "";
      }
    }
    if pendingSeparator != "" {
      if attached == [] {
        return Err(WhitespaceOnly);
      }
      if |LastOf(attached)| + |pendingSeparator| > ceiling {
        return Err(TrailingSeparatorTooLong);
      }
      attached := attached[|attached| - 1 := LastOf(attached) + pendingSeparator];
    }
    return Ok(attached);
  }

  ghost predicate Renderable(pieces: seq<string>, ceiling: nat) {
    forall i | 0 <= i < |pieces| :: !Blank(pieces[i]) && |pieces[i]| <= ceiling
  }

  lemma {:induction false} AttachIsRenderable(pieces: seq<string>, ceiling: nat, attached: seq<string>, pending: string)
    requires Renderable(attached, ceiling)
    ensures var r := Attach(pieces, ceiling, attached, pending);
            r.Ok? ==> Renderable(r.value, ceiling)
    decreases |pieces|
  {
    if pieces == [] {
      if attached != [] {
        BlankAppend(LastOf(attached), pending);
      }
    } else if Blank(pieces[0]) {
      if attached != [] && |LastOf(attached)| + |pieces[0]| <= ceiling {
        BlankAppend(LastOf(attached), pieces[0]);
        AttachIsRenderable(pieces[1..], ceiling, ExtendLast(attached, pieces[0]), pending);
      } else {
        AttachIsRenderable(pieces[1..], ceiling, attached, pending + pieces[0]);
      }
    } else if |pending + pieces[0]| <= ceiling {
      BlankAppend(pending, pieces[0]);
      AttachIsRenderable(pieces[1..], ceiling, attached + [pending + pieces[0]], "");
    }
  }

  /**
   * In every group of consecutive blank pieces, those that fit the preceding piece, followed by
   * those that are deferred, spell the group itself. `room` is the preceding piece's length.
   */
  predicate GroupsInOrder(pieces: seq<string>, ceiling: nat, room: Option<nat>,
                          group: string, kept: string, deferred: string)
    decreases |pieces|
  {
    if pieces == [] then group == kept + deferred
    else if Blank(pieces[0]) then
      if room.Some? && room.value + |pieces[0]| <= ceiling
      then GroupsInOrder(pieces[1..], ceiling, Some(room.value + |pieces[0]|),
                         group + pieces[0], kept + pieces[0], deferred)
      else GroupsInOrder(pieces[1..], ceiling, room, group + pieces[0], kept, deferred + pieces[0])
    else
      && group == kept + deferred
      && GroupsInOrder(pieces[1..], ceiling, Some(|deferred| + |pieces[0]|), "", "", "")
  }

  function Room(attached: seq<string>): Option<nat> {
    if attached == [] then None else Some(|LastOf(attached)|)
  }

  lemma ExtendLastJoins(attached: seq<string>, tail: string)
    requires attached != []
    ensures Join(ExtendLast(attached, tail)) == Join(attached) + tail
  {
    var front := attached[..|attached| - 1];
    assert attached == front + [LastOf(attached)];
    assert ExtendLast(attached, tail) == front + [LastOf(attached) + tail];
    JoinSnoc(front, LastOf(attached));
    JoinSnoc(front, LastOf(attached) + tail);
  }

  /** What is left to prove about a loop state: `before` precedes the current blank group. */
  ghost predicate ExactIff(pieces: seq<string>, ceiling: nat, attached: seq<string>, deferred: string,
                           before: string, group: string, kept: string)
    requires Attach(pieces, ceiling, attached, deferred).Ok?
  {
    var out := Attach(pieces, ceiling, attached, deferred).value;
    && Join(attached) <= Join(out)
    && |Join(out)| == |before| + |group| + |Join(pieces)|
    && (Join(out) == before + group + Join(pieces)
        <==> GroupsInOrder(pieces, ceiling, Room(attached), group, kept, deferred))
  }

  lemma ExactIffEnd(ceiling: nat, attached: seq<string>, deferred: string,
                    before: string, group: string, kept: string)
    requires Join(attached) == before + kept
    requires |group| == |kept| + |deferred|
    requires Attach([], ceiling, attached, deferred).Ok?
    ensures ExactIff([], ceiling, attached, deferred, before, group, kept)
  {
    var out := Attach([], ceiling, attached, deferred).value;
    if deferred != "" {
      ExtendLastJoins(attached, deferred);
    }
    assert Join(out) == before + (kept + deferred);
    SamePrefix(before, kept + deferred, group);
    assert before + group + Join([]) == before + group;
  }

  lemma ExactIffBlank(pieces: seq<string>, ceiling: nat, attached: seq<string>, deferred: string,
                      before: string, group: string, kept: string, piece: string)
    requires pieces != [] && piece == pieces[0] && Blank(piece)
    requires Attach(pieces, ceiling, attached, deferred).Ok?
    requires var fits := attached != [] && |LastOf(attached)| + |piece| <= ceiling;
             if fits
             then ExactIff(pieces[1..], ceiling, ExtendLast(attached, piece), deferred,
                           before, group + piece, kept + piece)
             else ExactIff(pieces[1..], ceiling, attached, deferred + piece,
                           before, group + piece, kept)
    ensures ExactIff(pieces, ceiling, attached, deferred, before, group, kept)
  {
    var rest := Join(pieces[1..]);
    assert before + (group + piece) + rest == before + group + (piece + rest);
    if attached != [] {
      ExtendLastJoins(attached, piece);
    }
  }

  lemma ExactIffToken(pieces: seq<string>, ceiling: nat, attached: seq<string>, deferred: string,
                      before: string, group: string, kept: string, before': string)
    requires pieces != [] && !Blank(pieces[0])
    requires Join(attached) == before + kept
    requires |group| == |kept| + |deferred|
    requires Attach(pieces, ceiling, attached, deferred).Ok?
    requires before' == before + kept + (deferred + pieces[0])
    requires ExactIff(pieces[1..], ceiling, attached + [deferred + pieces[0]], "", before', "", "")
    ensures ExactIff(pieces, ceiling, attached, deferred, before, group, kept)
  {
    var out := Attach(pieces, ceiling, attached, deferred).value;
    var rest := Join(pieces[1..]);
    JoinSnoc(attached, deferred + pieces[0]);
    assert before' + "" + rest == before' + rest;
    assert before + kept <= before' <= Join(out);
    TokenKeepsOrder(out, before, kept, deferred, group, pieces[0], rest);
  }

  /** Merging separators reproduces the text exactly when every blank group keeps its order. */
  lemma {:induction false} AttachExactIff(pieces: seq<string>, ceiling: nat, attached: seq<string>, deferred: string,
                                          before: string, group: string, kept: string)
    requires Join(attached) == before + kept
    requires |group| == |kept| + |deferred|
    requires Attach(pieces, ceiling, attached, deferred).Ok?
    ensures ExactIff(pieces, ceiling, attached, deferred, before, group, kept)
    decreases |pieces|
  {
    if pieces == [] {
      ExactIffEnd(ceiling, attached, deferred, before, group, kept);
    } else if Blank(pieces[0]) {
      if attached != [] && |LastOf(attached)| + |pieces[0]| <= ceiling {
        ExtendLastJoins(attached, pieces[0]);
        assert before + kept + pieces[0] == before + (kept + pieces[0]);
        AttachExactIff(pieces[1..], ceiling, ExtendLast(attached, pieces[0]), deferred,
                       before, group + pieces[0], kept + pieces[0]);
      } else {
        AttachExactIff(pieces[1..], ceiling, attached, deferred + pieces[0],
                       before, group + pieces[0], kept);
      }
      ExactIffBlank(pieces, ceiling, attached, deferred, before, group, kept, pieces[0]);
    } else {
      var token := deferred + pieces[0];
      JoinSnoc(attached, token);
      var before' := before + kept + token;
      assert Join(attached + [token]) == before' + "";
      AttachExactIff(pieces[1..], ceiling, attached + [token], "", before', "", "");
      ExactIffToken(pieces, ceiling, attached, deferred, before, group, kept, before');
    }
  }

  lemma SamePrefix(before: string, a: string, b: string)
    ensures before + a == before + b <==> a == b
  {
    if before + a == before + b {
      assert a == (before + a)[|before|..] == b;
    }
  }

  lemma TokenKeepsOrder(out: seq<string>, before: string, kept: string, deferred: string,
                        group: string, piece: string, rest: string)
    requires |group| == |kept| + |deferred|
    requires before + kept + (deferred + piece) <= Join(out)
    ensures Join(out) == before + group + (piece + rest)
       <==> group == kept + deferred && Join(out) == before + kept + (deferred + piece) + rest
  {
    assert before + (kept + deferred) + (piece + rest) == before + kept + (deferred + piece) + rest;
    if Join(out) == before + group + (piece + rest) {
      var j := Join(out);
      var n := |before| + |group|;
      assert j[..n] == before + group;
      assert (before + kept + (deferred + piece))[..n] == before + (kept + deferred);
      assert j[..n] == (before + kept + (deferred + piece))[..n];
      SamePrefix(before, group, kept + deferred);
    }
  }

  // ---------------------------------------------------------------- separators that never overtake

  predicate Alternates(pieces: seq<string>) {
    && (forall i | 0 <= i < |pieces| :: pieces[i] != "")
    && (forall i | 0 <= i < |pieces| - 1 :: Blank(pieces[i]) ==> !Blank(pieces[i + 1]))
  }

  /** `text` is the concatenation of the nonempty range `pieces[lo..hi]`. */
  predicate Covers(text: string, pieces: seq<string>, lo: nat, hi: nat) {
    lo < hi <= |pieces| && text == Join(pieces[lo..hi])
  }

  /** `out[i]` is the concatenation of `pieces[marks[i]..marks[i + 1]]`. */
  ghost predicate GroupedAs(out: seq<string>, pieces: seq<string>, marks: seq<nat>, upTo: nat) {
    && |marks| == |out| + 1
    && marks[0] == 0 && marks[|out|] == upTo
    && (forall i | 0 <= i < |out| :: Covers(out[i], pieces, marks[i], marks[i + 1]))
  }

  lemma GroupExtend(out: seq<string>, pieces: seq<string>, marks: seq<nat>, e: nat, k: nat)
    requires GroupedAs(out, pieces, marks, e) && out != [] && e <= k <= |pieces|
    ensures GroupedAs(ExtendLast(out, Join(pieces[e..k])), pieces, marks[|out| := k], k)
  {
    JoinSplit(pieces, marks[|out| - 1], e, k);
  }

  /** Blank pieces that never follow one another are merged as contiguous ranges. */
  lemma {:induction false} AttachGroups(pieces: seq<string>, ceiling: nat, k: nat,
                                        attached: seq<string>, pending: string, e: nat, marks: seq<nat>)
    returns (final: seq<nat>)
    requires Alternates(pieces) && e <= k <= |pieces|
    requires GroupedAs(attached, pieces, marks, e)
    requires pending == Join(pieces[e..k])
    requires e < k ==> k == e + 1 && Blank(pieces[e])
    requires Attach(pieces[k..], ceiling, attached, pending).Ok?
    ensures GroupedAs(Attach(pieces[k..], ceiling, attached, pending).value, pieces, final, |pieces|)
    decreases |pieces| - k
  {
    if k == |pieces| {
      final := marks;
      if e < k {
        JoinOne(pieces, e);
        final := marks[|attached| := k];
        GroupExtend(attached, pieces, marks, e, k);
      }
    } else {
      final := AttachGroupsStep(pieces, ceiling, k, attached, pending, e, marks);
    }
  }

  lemma {:induction false} AttachGroupsStep(pieces: seq<string>, ceiling: nat, k: nat,
                                            attached: seq<string>, pending: string, e: nat, marks: seq<nat>)
    returns (final: seq<nat>)
    requires Alternates(pieces) && e <= k < |pieces|
    requires GroupedAs(attached, pieces, marks, e)
    requires pending == Join(pieces[e..k])
    requires e < k ==> k == e + 1 && Blank(pieces[e])
    requires Attach(pieces[k..], ceiling, attached, pending).Ok?
    ensures GroupedAs(Attach(pieces[k..], ceiling, attached, pending).value, pieces, final, |pieces|)
    decreases |pieces| - k, 0
  {
    assert pieces[k..][0] == pieces[k] && pieces[k..][1..] == pieces[k + 1..];
    JoinOne(pieces, k);
    JoinSplit(pieces, e, k, k + 1);
    if Blank(pieces[k]) {
      assert e == k;
      if attached != [] && |LastOf(attached)| + |pieces[k]| <= ceiling {
        GroupExtend(attached, pieces, marks, k, k + 1);
        final := AttachGroups(pieces, ceiling, k + 1, ExtendLast(attached, pieces[k]), pending,
                              k + 1, marks[|attached| := k + 1]);
      } else {
        final := AttachGroups(pieces, ceiling, k + 1, attached, pending + pieces[k], e, marks);
      }
    } else {
      assert Covers(pending + pieces[k], pieces, e, k + 1);
      final := AttachGroups(pieces, ceiling, k + 1, attached + [pending + pieces[k]], "",
                            k + 1, marks + [k + 1]);
    }
  }

  // ---------------------------------------------------------------- the whole splitter

  /** The pieces the cut loop pushes from `start` on. */
  function Pieces(clusters: seq<string>, max: nat, start: nat): Result<seq<string>, SplitError>
    requires start <= |clusters|
    decreases |clusters| - start
  {
    if start == |clusters| then Ok([])
    else
      var end :- CutAfter(clusters, max, start);
      var rest :- Pieces(clusters, max, end);
      Ok([Join(clusters[start..end])] + rest)
  }

  function Split(clusters: seq<string>, max: nat): Result<seq<string>, SplitError> {
    var pieces :- Pieces(clusters, max, 0);
    Attach(pieces, max + SEPARATOR_OVERSHOOT, [], "")
  }

  lemma {:induction false} PiecesAreSlices(clusters: seq<string>, max: nat, start: nat)
    requires start <= |clusters|
    ensures Pieces(clusters, max, start).Ok? <==> Ends(clusters, max, start).Ok?
    ensures var ends := Ends(clusters, max, start);
            && (ends.Ok? ==> Ascending(clusters, start, ends.value))
            && (ends.Ok? ==> Pieces(clusters, max, start) == Ok(Slices(clusters, start, ends.value)))
    decreases |clusters| - start
  {
    if start < |clusters| {
      var cut := CutAfter(clusters, max, start);
      if cut.Ok? {
        PiecesAreSlices(clusters, max, cut.value);
        var rest := Ends(clusters, max, cut.value);
        if rest.Ok? {
          assert ([cut.value] + rest.value)[1..] == rest.value;
        }
      }
    }
  }

  /** Text within the budget skips the cut loop, which would have produced the same single piece. */
  lemma ShortTextIsOnePiece(clusters: seq<string>, max: nat)
    requires ProperClusters(clusters) && |Join(clusters)| <= max
    ensures Split(clusters, max) == Attach([Join(clusters)], max + SEPARATOR_OVERSHOOT, [], "")
  {
    SizeIsLength(clusters, 0, |clusters|);
    assert clusters[0..|clusters|] == clusters;
    if clusters != [] {
      var n := |clusters|;
      assert CutAfter(clusters, max, 0) == Ok(n);
      assert Pieces(clusters, max, n) == Ok([]);
      assert [Join(clusters)] + [] == [Join(clusters)];
      assert Pieces(clusters, max, 0) == Ok([Join(clusters)]);
    } else {
      assert [Join(clusters)][1..] == [];
    }
  }

  method SplitText(text: string, clusters: seq<string>, maxCharacters: nat)
    returns (r: Result<seq<string>, SplitError>)
    requires ProperClusters(clusters) && Join(clusters) == text
    ensures r == Split(clusters, maxCharacters)
  {
    if |text| <= maxCharacters {
      ShortTextIsOnePiece(clusters, maxCharacters);
      r := AttachOrphanSeparators([text], maxCharacters);
      return;
    }
    var pieces: seq<string> := [];
    var start := 0;
    ghost var whole := Pieces(clusters, maxCharacters, 0);
    assert whole.Ok? ==> [] + whole.value == whole.value;
    while start < |clusters|
      invariant start <= |clusters|
      invariant Resume(pieces, Pieces(clusters, maxCharacters, start)) == whole
      decreases |clusters| - start
    {
      var cut := ChooseEnd(clusters, maxCharacters, start);
      if cut.Err? {
        return Err(cut.error);
      }
      ResumeStep(clusters, maxCharacters, start, pieces);
      pieces := pieces + [Join(clusters[start..cut.value])];
      start := cut.value;
    }
    assert pieces + [] == pieces;
    r := AttachOrphanSeparators(pieces, maxCharacters);
  }

  /** What the loop returns once the pieces already pushed are put in front of the rest. */
  function Resume(pieces: seq<string>, rest: Result<seq<string>, SplitError>)
    : Result<seq<string>, SplitError>
  {
    if rest.Err? then rest else Ok(pieces + rest.value)
  }

  lemma ResumeStep(clusters: seq<string>, max: nat, start: nat, pieces: seq<string>)
    requires start < |clusters| && CutAfter(clusters, max, start).Ok?
    ensures var cut := CutAfter(clusters, max, start).value;
            Resume(pieces, Pieces(clusters, max, start))
            == Resume(pieces + [Join(clusters[start..cut])], Pieces(clusters, max, cut))
  {
    var cut := CutAfter(clusters, max, start).value;
    var piece := Join(clusters[start..cut]);
    var rest := Pieces(clusters, max, cut);
    if rest.Ok? {
      assert pieces + [piece] + rest.value == pieces + ([piece] + rest.value);
    }
  }

  /** One iteration's choice of `end`; the last piece takes whatever is left. */
  method ChooseEnd(clusters: seq<string>, maxCharacters: nat, start: nat)
    returns (end: Result<nat, SplitError>)
    requires start < |clusters|
    ensures end == CutAfter(clusters, maxCharacters, start)
  {
    var rest := RangeCodePoints(clusters, start, |clusters|);
    if rest <= maxCharacters {
      return Ok(|clusters|);
    }
    var maxEnd := start;
    var accumulated := 0;
    while maxEnd + 1 <= |clusters|
      invariant start <= maxEnd <= |clusters|
      invariant accumulated <= maxCharacters
      invariant FitEnd(clusters, maxEnd, maxCharacters - accumulated)
             == FitEnd(clusters, start, maxCharacters)
    {
      var next := |clusters[maxEnd]|;
      if accumulated + next > maxCharacters {
        break;
      }
      accumulated := accumulated + next;
      maxEnd := maxEnd + 1;
    }
    assert maxEnd == FitEnd(clusters, start, maxCharacters);
    if maxEnd == start {
      return Err(ClusterOverBudget);
    }
    var found := LatestBoundary(clusters, start, maxEnd, Sentence);
    if found.None? {
      found := LatestBoundary(clusters, start, maxEnd, Clause);
    }
    if found.None? {
      found := LatestBoundary(clusters, start, maxEnd, Word);
    }
    if found.None? {
      return Err(NoBoundary);
    }
    return Ok(found.value);
  }

  method RangeCodePoints(clusters: seq<string>, start: nat, end: nat) returns (total: nat)
    requires start <= end <= |clusters|
    ensures total == Size(clusters, start, end)
  {
    total := 0;
    for i := start to end
      invariant total + Size(clusters, i, end) == Size(clusters, start, end)
    {
      total := total + |clusters[i]|;
    }
  }

  // ---------------------------------------------------------------- what the splitter guarantees

  /** Position at which the cut list begins its `j`-th range. */
  function CutAt(start: nat, ends: seq<nat>, j: nat): nat
    requires j <= |ends|
  {
    if j == 0 then start else ends[j - 1]
  }

  lemma {:induction false} SlicesCover(clusters: seq<string>, start: nat, ends: seq<nat>, lo: nat, hi: nat)
    requires Ascending(clusters, start, ends) && lo <= hi <= |ends|
    ensures |Slices(clusters, start, ends)| == |ends|
    ensures start <= CutAt(start, ends, lo) <= CutAt(start, ends, hi) <= |clusters|
    ensures lo < hi ==> CutAt(start, ends, lo) < CutAt(start, ends, hi)
    ensures Join(Slices(clusters, start, ends)[lo..hi])
         == Join(clusters[CutAt(start, ends, lo)..CutAt(start, ends, hi)])
    decreases |ends|, hi
  {
    if ends == [] {
      assert clusters[start..start] == [];
      return;
    }
    var tail := Slices(clusters, ends[0], ends[1..]);
    var all := Slices(clusters, start, ends);
    SlicesCover(clusters, ends[0], ends[1..], 0, 0);
    if hi == 0 {
      assert all[0..0] == [];
    } else if lo > 0 {
      SlicesCover(clusters, ends[0], ends[1..], lo - 1, hi - 1);
      assert all[lo..hi] == tail[lo - 1..hi - 1];
    } else {
      SlicesCover(clusters, ends[0], ends[1..], 0, hi - 1);
      assert all[0..hi] == [all[0]] + tail[0..hi - 1];
      JoinSplit(clusters, start, ends[0], CutAt(start, ends, hi));
    }
  }

  /** Every interior cut is next to white space. */
  ghost predicate CutsAtBoundaries(clusters: seq<string>, ends: seq<nat>) {
    forall j | 0 <= j < |ends| :: 0 < ends[j] <= |clusters|
      && (ends[j] < |clusters| ==> AtWordBoundary(clusters, ends[j]))
  }

  lemma {:induction false} EndsAreBoundaries(clusters: seq<string>, max: nat, start: nat)
    requires start <= |clusters| && Ends(clusters, max, start).Ok?
    ensures CutsAtBoundaries(clusters, Ends(clusters, max, start).value)
    ensures start < |clusters| ==> var ends := Ends(clusters, max, start).value;
              ends != [] && ends[|ends| - 1] == |clusters|
    decreases |clusters| - start
  {
    if start < |clusters| {
      var cut := CutAfter(clusters, max, start).value;
      EndsAreBoundaries(clusters, max, cut);
      var rest := Ends(clusters, max, cut).value;
      assert ([cut] + rest)[1..] == rest;
    }
  }

  /** Every run of blank clusters fits the budget. */
  ghost predicate BlankRunsFit(clusters: seq<string>, max: nat) {
    forall lo, hi | 0 <= lo <= hi <= |clusters| && BlankRun(clusters, lo, hi)
      :: Size(clusters, lo, hi) <= max
  }

  predicate BlankRun(clusters: seq<string>, lo: nat, hi: nat)
    requires lo <= hi <= |clusters|
  {
    forall i | lo <= i < hi :: Blank(clusters[i])
  }

  lemma BlankSlice(clusters: seq<string>, lo: nat, hi: nat)
    requires lo <= hi <= |clusters|
    ensures Blank(Join(clusters[lo..hi])) <==> BlankRun(clusters, lo, hi)
  {
    BlankJoin(clusters[lo..hi]);
    assert forall i | lo <= i < hi :: clusters[i] == clusters[lo..hi][i - lo];
  }

  lemma {:induction false} SameTierAcrossSpace(clusters: seq<string>, lo: nat, hi: nat)
    requires lo <= hi <= |clusters| && ProperClusters(clusters) && BlankRun(clusters, lo, hi)
    ensures TierBefore(clusters, hi) == TierBefore(clusters, lo)
    decreases hi
  {
    if lo < hi {
      assert Blank(clusters[hi - 1]) && IsSpace(clusters[hi - 1][0]);
      SameTierAcrossSpace(clusters, lo, hi - 1);
    }
  }

  lemma {:induction false} FitEndReaches(clusters: seq<string>, from: nat, budget: nat, hi: nat)
    requires from <= hi <= |clusters| && Size(clusters, from, hi) <= budget
    ensures hi <= FitEnd(clusters, from, budget)
    decreases hi - from
  {
    if from < hi {
      FitEndReaches(clusters, from + 1, budget - |clusters[from]|, hi);
    }
  }

  /** A blank range is never followed by another: the latest boundary swallows the whole run. */
  lemma NextPieceIsNotBlank(clusters: seq<string>, max: nat, start: nat, end: nat, next: nat)
    requires ProperClusters(clusters) && BlankRunsFit(clusters, max)
    requires start < |clusters| && CutAfter(clusters, max, start) == Ok(end)
    requires end < next <= |clusters|
    requires BlankRun(clusters, start, end)
    ensures !BlankRun(clusters, end, next)
  {
    if BlankRun(clusters, end, next) {
      assert BlankRun(clusters, start, next);
      FitEndReaches(clusters, start, max, next);
      var maxEnd := FitEnd(clusters, start, max);
      SameTierAcrossSpace(clusters, end, next);
      assert IsSpace(clusters[next - 1][0]);
      assert IsBoundary(clusters, next, TierBefore(clusters, end));
    }
  }

  lemma {:induction false} PiecesAlternate(clusters: seq<string>, max: nat, start: nat)
    requires ProperClusters(clusters) && BlankRunsFit(clusters, max)
    requires start <= |clusters| && Ends(clusters, max, start).Ok?
    ensures Ascending(clusters, start, Ends(clusters, max, start).value)
    ensures Alternates(Slices(clusters, start, Ends(clusters, max, start).value))
    decreases |clusters| - start
  {
    EndsAscend(clusters, max, start);
    if start < |clusters| {
      var ends := Ends(clusters, max, start).value;
      var cut := CutAfter(clusters, max, start).value;
      PiecesAlternate(clusters, max, cut);
      var rest := Ends(clusters, max, cut).value;
      assert ends[1..] == rest;
      var pieces := Slices(clusters, start, ends);
      var tail := Slices(clusters, cut, rest);
      assert pieces == [Join(clusters[start..cut])] + tail;
      assert clusters[start..cut][0] == clusters[start];
      BlankSlice(clusters, start, cut);
      if rest != [] && BlankRun(clusters, start, cut) {
        NextPieceIsNotBlank(clusters, max, start, cut, rest[0]);
        BlankSlice(clusters, cut, rest[0]);
      }
      assert forall i | 0 <= i < |tail| :: pieces[i + 1] == tail[i];
    }
  }

  lemma {:induction false} PartitionJoins(out: seq<string>, pieces: seq<string>, marks: seq<nat>, upTo: nat)
    requires GroupedAs(out, pieces, marks, upTo) && upTo <= |pieces|
    ensures Join(out) == Join(pieces[0..upTo])
    decreases |out|
  {
    if out == [] {
      assert pieces[0..upTo] == [];
    } else {
      var n := |out| - 1;
      assert Covers(out[n], pieces, marks[n], marks[n + 1]);
      PartitionJoins(out[..n], pieces, marks[..n + 1], marks[n]);
      assert out == out[..n] + [out[n]];
      JoinSnoc(out[..n], out[n]);
      JoinSplit(pieces, 0, marks[n], upTo);
    }
  }

  lemma ComposeCuts(clusters: seq<string>, ends: seq<nat>, out: seq<string>, marks: seq<nat>)
    returns (cuts: seq<nat>)
    requires Ascending(clusters, 0, ends) && CutsAtBoundaries(clusters, ends)
    requires CutAt(0, ends, |ends|) == |clusters|
    requires GroupedAs(out, Slices(clusters, 0, ends), marks, |ends|)
    ensures GroupedAs(out, clusters, cuts, |clusters|)
    ensures CutsAtBoundaries(clusters, cuts[1..])
  {
    var pieces := Slices(clusters, 0, ends);
    SlicesCover(clusters, 0, ends, 0, |ends|);
    forall i | 0 <= i <= |out| ensures marks[i] <= |ends| {
      assert i < |out| ==> Covers(out[i], pieces, marks[i], marks[i + 1]);
    }
    cuts := seq(|out| + 1, i requires 0 <= i <= |out| => CutAt(0, ends, marks[i]));
    forall i | 0 <= i < |out| ensures Covers(out[i], clusters, cuts[i], cuts[i + 1]) {
      assert Covers(out[i], pieces, marks[i], marks[i + 1]);
      SlicesCover(clusters, 0, ends, marks[i], marks[i + 1]);
    }
    forall j | 0 <= j < |out|
      ensures 0 < cuts[1..][j] <= |clusters|
      ensures cuts[1..][j] < |clusters| ==> AtWordBoundary(clusters, cuts[1..][j])
    {
      assert Covers(out[j], pieces, marks[j], marks[j + 1]);
      assert cuts[1..][j] == ends[marks[j + 1] - 1];
    }
  }

  /**
   * When every blank run fits the budget, a returned split is a partition of the cluster list at
   * word boundaries, so no cluster and no word is broken and the text is reproduced exactly.
   */
  lemma SplitIsExactPartition(clusters: seq<string>, max: nat) returns (cuts: seq<nat>)
    requires ProperClusters(clusters) && BlankRunsFit(clusters, max)
    requires Split(clusters, max).Ok?
    ensures var out := Split(clusters, max).value;
            && GroupedAs(out, clusters, cuts, |clusters|)
            && CutsAtBoundaries(clusters, cuts[1..])
            && Join(out) == Join(clusters)
  {
    var ends := CutsOfSplit(clusters, max);
    var pieces := Slices(clusters, 0, ends);
    var out := Split(clusters, max).value;
    var marks := GroupsOfWhole(pieces, max + SEPARATOR_OVERSHOOT);
    cuts := ComposeCuts(clusters, ends, out, marks);
    PartitionJoins(out, clusters, cuts, |clusters|);
    assert clusters[0..|clusters|] == clusters;
  }

  /** The cuts of the main loop, before separators are attached. */
  lemma CutsOfSplit(clusters: seq<string>, max: nat) returns (ends: seq<nat>)
    requires ProperClusters(clusters) && BlankRunsFit(clusters, max)
    requires Split(clusters, max).Ok?
    ensures Ascending(clusters, 0, ends) && CutsAtBoundaries(clusters, ends)
    ensures Alternates(Slices(clusters, 0, ends)) && |Slices(clusters, 0, ends)| == |ends|
    ensures CutAt(0, ends, |ends|) == |clusters|
    ensures Split(clusters, max) == Attach(Slices(clusters, 0, ends), max + SEPARATOR_OVERSHOOT, [], "")
  {
    PiecesAreSlices(clusters, max, 0);
    ends := Ends(clusters, max, 0).value;
    PiecesAlternate(clusters, max, 0);
    EndsAreBoundaries(clusters, max, 0);
    SlicesCover(clusters, 0, ends, 0, 0);
    assert clusters == [] ==> ends == [];
  }

  lemma GroupsOfWhole(pieces: seq<string>, ceiling: nat) returns (marks: seq<nat>)
    requires Alternates(pieces) && Attach(pieces, ceiling, [], "").Ok?
    ensures GroupedAs(Attach(pieces, ceiling, [], "").value, pieces, marks, |pieces|)
  {
    assert pieces[0..] == pieces && pieces[0..0] == [];
    marks := AttachGroups(pieces, ceiling, 0, [], "", 0, [0]);
  }

  /** The text is reproduced exactly when every group of blank pieces keeps its order. */
  lemma SplitIsExactIff(clusters: seq<string>, max: nat)
    requires Split(clusters, max).Ok?
    ensures Ends(clusters, max, 0).Ok?
    ensures var ends := Ends(clusters, max, 0).value;
            var ceiling := max + SEPARATOR_OVERSHOOT;
            && Ascending(clusters, 0, ends)
            && (Join(Split(clusters, max).value) == Join(clusters)
                <==> GroupsInOrder(Slices(clusters, 0, ends), ceiling, None, "", "", ""))
  {
    PiecesSpellText(clusters, max);
    AttachKeepsTextIff(Slices(clusters, 0, Ends(clusters, max, 0).value), max + SEPARATOR_OVERSHOOT);
  }

  /** Before separators are attached the pieces spell the text. */
  lemma PiecesSpellText(clusters: seq<string>, max: nat)
    requires Ends(clusters, max, 0).Ok? || Split(clusters, max).Ok?
    ensures Ends(clusters, max, 0).Ok? && Ascending(clusters, 0, Ends(clusters, max, 0).value)
    ensures Pieces(clusters, max, 0) == Ok(Slices(clusters, 0, Ends(clusters, max, 0).value))
    ensures Join(Slices(clusters, 0, Ends(clusters, max, 0).value)) == Join(clusters)
  {
    PiecesAreSlices(clusters, max, 0);
    var ends := Ends(clusters, max, 0).value;
    if clusters != [] {
      EndsAreBoundaries(clusters, max, 0);
    }
    SlicesCover(clusters, 0, ends, 0, |ends|);
    var pieces := Slices(clusters, 0, ends);
    assert pieces[0..|ends|] == pieces && clusters[0..|clusters|] == clusters;
  }

  lemma AttachKeepsTextIff(pieces: seq<string>, ceiling: nat)
    requires Attach(pieces, ceiling, [], "").Ok?
    ensures Join(Attach(pieces, ceiling, [], "").value) == Join(pieces)
       <==> GroupsInOrder(pieces, ceiling, None, "", "", "")
  {
    AttachExactIff(pieces, ceiling, [], "", "", "", "");
    assert "" + "" + Join(pieces) == Join(pieces);
  }

  // ---------------------------------------------------------------- ordinary text is split

  /** Pieces fit the budget, and blank ones the allowance for separators. */
  predicate Ordinary(pieces: seq<string>, max: nat) {
    forall i | 0 <= i < |pieces| :: |pieces[i]| <= max && (Blank(pieces[i]) ==> |pieces[i]| <= SEPARATOR_OVERSHOOT)
  }

  lemma {:induction false} PiecesAreOrdinary(clusters: seq<string>, max: nat, start: nat)
    requires start <= |clusters| && Ends(clusters, max, start).Ok? && BlankRunsFit(clusters, SEPARATOR_OVERSHOOT)
    ensures Ascending(clusters, start, Ends(clusters, max, start).value)
    ensures Ordinary(Slices(clusters, start, Ends(clusters, max, start).value), max)
    decreases |clusters| - start
  {
    EndsAscend(clusters, max, start);
    if start < |clusters| {
      var ends, cut := Ends(clusters, max, start).value, CutAfter(clusters, max, start).value;
      PiecesAreOrdinary(clusters, max, cut);
      assert ends[1..] == Ends(clusters, max, cut).value;
      var pieces, tail := Slices(clusters, start, ends), Slices(clusters, cut, ends[1..]);
      assert pieces == [Join(clusters[start..cut])] + tail;
      SizeIsLength(clusters, start, cut);
      BlankSlice(clusters, start, cut);
    }
  }

  lemma {:induction false} AttachSucceeds(pieces: seq<string>, max: nat, attached: seq<string>)
    requires Ordinary(pieces, max) && Alternates(pieces)
    requires pieces != [] && Blank(pieces[0]) ==> attached != [] && |LastOf(attached)| <= max
    ensures Attach(pieces, max + SEPARATOR_OVERSHOOT, attached, "").Ok?
    decreases |pieces|
  {
    if pieces != [] {
      var first, rest := pieces[0], pieces[1..];
      assert forall i | 0 <= i < |rest| :: rest[i] == pieces[i + 1];
      assert "" + first == first;
      if Blank(first) {
        AttachSucceeds(rest, max, ExtendLast(attached, first));
      } else {
        AttachSucceeds(rest, max, attached + [first]);
      }
    }
  }

  /**
   * Text that starts with a word, whose words and clusters fit the budget and whose white-space runs fit
   * both the budget and the allowance for separators, is never refused.
   */
  lemma OrdinaryTextIsSplit(clusters: seq<string>, max: nat)
    requires ProperClusters(clusters) && clusters != [] && !Blank(clusters[0])
    requires Splittable(clusters, max, 0) && BlankRunsFit(clusters, max) && BlankRunsFit(clusters, SEPARATOR_OVERSHOOT)
    ensures Split(clusters, max).Ok? && Join(Split(clusters, max).value) == Join(clusters)
  {
    CutLoopSucceedsIff(clusters, max, 0);
    PiecesAreOrdinary(clusters, max, 0);
    PiecesAlternate(clusters, max, 0);
    PiecesAreSlices(clusters, max, 0);
    var ends := Ends(clusters, max, 0).value;
    BlankSlice(clusters, 0, ends[0]);
    AttachSucceeds(Slices(clusters, 0, ends), max, []);
    var cuts := SplitIsExactPartition(clusters, max);
  }

  /** Text without a word is always refused. */
  lemma BlankTextIsRefused(clusters: seq<string>, max: nat)
    requires ProperClusters(clusters) && clusters != [] && Blank(Join(clusters)) && |Join(clusters)| <= max
    ensures Split(clusters, max) == Err(WhitespaceOnly)
  {
    ShortTextIsOnePiece(clusters, max);
    var text := Join(clusters);
    assert text != "";
    assert [text][1..] == [] && "" + text == text;
  }

  /** Renderable whatever the white space: never blank, and at most eight code points over budget. */
  lemma SplitIsRenderable(clusters: seq<string>, max: nat)
    requires Split(clusters, max).Ok?
    ensures Renderable(Split(clusters, max).value, max + SEPARATOR_OVERSHOOT)
  {
    AttachIsRenderable(Pieces(clusters, max, 0).value, max + SEPARATOR_OVERSHOOT, [], "");
  }

  // ---------------------------------------------------------------- a piece that overtakes

  /**
   * The guard that can break the order never fires: no blank piece is appended to the piece before it
   * while an earlier one is deferred. Only lengths matter; `deferred` is how much is deferred.
   */
  predicate NoneOvertakes(pieces: seq<string>, ceiling: nat, room: Option<nat>, deferred: nat)
    decreases |pieces|
  {
    if pieces == [] then true
    else if Blank(pieces[0]) then
      if room.Some? && room.value + |pieces[0]| <= ceiling
      then deferred == 0 && NoneOvertakes(pieces[1..], ceiling, Some(room.value + |pieces[0]|), 0)
      else NoneOvertakes(pieces[1..], ceiling, room, deferred + |pieces[0]|)
    else NoneOvertakes(pieces[1..], ceiling, Some(deferred + |pieces[0]|), 0)
  }

  lemma {:induction false} NoneOvertakesKeepsOrder(pieces: seq<string>, ceiling: nat, room: Option<nat>,
                                                   group: string, kept: string, deferred: string)
    requires group == kept + deferred && NoneOvertakes(pieces, ceiling, room, |deferred|)
    ensures GroupsInOrder(pieces, ceiling, room, group, kept, deferred)
    decreases |pieces|
  {
    if pieces != [] {
      var piece, rest := pieces[0], pieces[1..];
      if !Blank(piece) {
        NoneOvertakesKeepsOrder(rest, ceiling, Some(|deferred| + |piece|), "", "", "");
      } else if room.Some? && room.value + |piece| <= ceiling {
        NoneOvertakesKeepsOrder(rest, ceiling, Some(room.value + |piece|), group + piece, kept + piece, deferred);
      } else {
        assert group + piece == kept + (deferred + piece);
        NoneOvertakesKeepsOrder(rest, ceiling, room, group + piece, kept, deferred + piece);
      }
    }
  }

  /** Text is only ever reordered by that guard. */
  lemma SplitIsExactUnlessOvertaken(clusters: seq<string>, max: nat)
    requires Split(clusters, max).Ok?
    requires NoneOvertakes(Pieces(clusters, max, 0).value, max + SEPARATOR_OVERSHOOT, None, 0)
    ensures Join(Split(clusters, max).value) == Join(clusters)
  {
    PiecesSpellText(clusters, max);
    SplitIsExactIff(clusters, max);
    NoneOvertakesKeepsOrder(Pieces(clusters, max, 0).value, max + SEPARATOR_OVERSHOOT, None, "", "", "");
  }

  /** A sentence end, line breaks for twice the budget, a space, a clause, and words for the rest of the budget. */
  function OvertakenAt(max: nat, i: nat): string {
    if i == 0 then "."
    else if i < 2 * max then "\n"
    else if i == 2 * max then " "
    else if i == 2 * max + 1 then "b"
    else if i == 2 * max + 2 then ","
    else if i % 2 == 1 then " "
    else "c"
  }

  function OvertakenLength(max: nat): nat {
    2 * max + 4 + 2 * (max / 2)
  }

  function Overtaken(max: nat): (clusters: seq<string>)
    ensures |clusters| == OvertakenLength(max)
    ensures forall i | 0 <= i < |clusters| :: clusters[i] == OvertakenAt(max, i) && |clusters[i]| == 1
  {
    seq(OvertakenLength(max), i requires 0 <= i < OvertakenLength(max) => OvertakenAt(max, i))
  }

  ghost predicate Singles(clusters: seq<string>) {
    forall i | 0 <= i < |clusters| :: |clusters[i]| == 1
  }

  lemma {:induction false} SingleSize(clusters: seq<string>, lo: nat, hi: nat)
    requires Singles(clusters) && lo <= hi <= |clusters|
    ensures Size(clusters, lo, hi) == hi - lo
    decreases hi - lo
  {
    if lo < hi {
      SingleSize(clusters, lo + 1, hi);
    }
  }

  lemma {:induction false} SingleFit(clusters: seq<string>, from: nat, budget: nat)
    requires Singles(clusters) && from <= |clusters|
    ensures FitEnd(clusters, from, budget) == if from + budget <= |clusters| then from + budget else |clusters|
    decreases budget
  {
    if from < |clusters| && budget > 0 {
      SingleFit(clusters, from + 1, budget - 1);
    }
  }

  /** A cut is known once its tier is the best in reach and it is the last of that tier. */
  lemma CutIs(clusters: seq<string>, max: nat, start: nat, end: nat, tier: Tier)
    requires Singles(clusters) && start < end <= start + max < |clusters| && IsBoundary(clusters, end, tier)
    requires forall e | end < e <= start + max :: !IsBoundary(clusters, e, tier)
    requires tier != Sentence ==> forall e | start < e <= start + max :: !IsBoundary(clusters, e, Sentence)
    requires tier == Word ==> forall e | start < e <= start + max :: !IsBoundary(clusters, e, Clause)
    ensures CutAfter(clusters, max, start) == Ok(end)
  {
    SingleSize(clusters, start, |clusters|);
    SingleFit(clusters, start, max);
  }

  lemma SymbolSpaces(max: nat, i: nat)
    requires max > 0
    ensures Spaced(OvertakenAt(max, i)) <==> (1 <= i <= 2 * max || (i > 2 * max + 2 && i % 2 == 1))
  {
    assert IsSpace("\n"[0]) && IsSpace(" "[0]);
    assert !IsSpace("."[0]) && !IsSpace("b"[0]) && !IsSpace(","[0]) && !IsSpace("c"[0]);
  }

  function OvertakenTier(max: nat, end: nat): Tier {
    if end <= 2 * max + 1 then Sentence
    else if end == 2 * max + 3 || end == 2 * max + 4 then Clause
    else Word
  }

  lemma SymbolTier(max: nat, i: nat)
    requires max > 0
    ensures Triggers(OvertakenAt(max, i)) <==> i == 0 || i == 2 * max + 1 || i == 2 * max + 2 || (i > 2 * max + 2 && i % 2 == 0)
    ensures Triggers(OvertakenAt(max, i)) ==>
              TierOf(OvertakenAt(max, i)) == if i == 0 then Sentence else if i == 2 * max + 2 then Clause else Word
  {
    SymbolSpaces(max, i);
  }

  lemma TierStep(clusters: seq<string>, end: nat)
    requires 0 < end <= |clusters|
    ensures TierBefore(clusters, end)
         == if Triggers(clusters[end - 1]) then TierOf(clusters[end - 1]) else TierBefore(clusters, end - 1)
  {
  }

  predicate SymbolTriggers(max: nat, i: nat) {
    i == 0 || i == 2 * max + 1 || i == 2 * max + 2 || (i > 2 * max + 2 && i % 2 == 0)
  }

  lemma SymbolStep(max: nat, clusters: seq<string>, end: nat)
    requires max > 0 && clusters == Overtaken(max) && 0 < end <= |clusters|
    ensures TierBefore(clusters, end)
         == if !SymbolTriggers(max, end - 1) then TierBefore(clusters, end - 1)
            else if end == 1 then Sentence else if end == 2 * max + 3 then Clause else Word
  {
    SymbolTier(max, end - 1);
    TierStep(clusters, end);
  }

  lemma {:induction false} OvertakenTiers(max: nat, end: nat)
    requires max > 0 && 0 < end <= OvertakenLength(max)
    ensures TierBefore(Overtaken(max), end) == OvertakenTier(max, end)
  {
    SymbolStep(max, Overtaken(max), end);
    if !SymbolTriggers(max, end - 1) {
      OvertakenTiers(max, end - 1);
    }
  }

  lemma OvertakenBoundary(max: nat, end: nat, tier: Tier)
    requires max > 0 && 0 < end < OvertakenLength(max)
    ensures IsBoundary(Overtaken(max), end, tier) ==> tier == OvertakenTier(max, end)
    ensures 1 <= end <= 2 * max + 1 || end == 2 * max + 4 ==> IsBoundary(Overtaken(max), end, OvertakenTier(max, end))
  {
    OvertakenTiers(max, end);
    SymbolSpaces(max, end - 1);
    SymbolSpaces(max, end);
  }

  /** What the cut loop sees of such a text: the tiers of its boundaries, four of which it will take. */
  ghost predicate CutsLikeOvertaken(clusters: seq<string>, max: nat) {
    && max >= 9 && |clusters| == OvertakenLength(max) && Singles(clusters)
    && (forall e: nat, tier | 0 < e < |clusters| && IsBoundary(clusters, e, tier) :: tier == OvertakenTier(max, e))
    && IsBoundary(clusters, max, Sentence) && IsBoundary(clusters, 2 * max, Sentence)
    && IsBoundary(clusters, 2 * max + 1, Sentence) && IsBoundary(clusters, 2 * max + 4, Clause)
  }

  lemma OvertakenCuts(max: nat)
    requires max >= 9
    ensures CutsLikeOvertaken(Overtaken(max), max)
  {
    forall e: nat, tier | 0 < e < OvertakenLength(max) && IsBoundary(Overtaken(max), e, tier)
      ensures tier == OvertakenTier(max, e)
    {
      OvertakenBoundary(max, e, tier);
    }
    OvertakenBoundary(max, max, Sentence);
    OvertakenBoundary(max, 2 * max, Sentence);
    OvertakenBoundary(max, 2 * max + 1, Sentence);
    OvertakenBoundary(max, 2 * max + 4, Clause);
  }

  lemma PieceStep(clusters: seq<string>, max: nat, start: nat, cut: nat, piece: string, rest: seq<string>, all: seq<string>)
    requires start < cut <= |clusters| && CutAfter(clusters, max, start) == Ok(cut)
    requires Pieces(clusters, max, cut) == Ok(rest)
    requires piece == Join(clusters[start..cut]) && all == [piece] + rest
    ensures Pieces(clusters, max, start) == Ok(all)
  {
  }

  lemma FirstCuts(clusters: seq<string>, max: nat)
    requires CutsLikeOvertaken(clusters, max)
    ensures CutAfter(clusters, max, 0) == Ok(max) && CutAfter(clusters, max, max) == Ok(2 * max)
  {
    CutIs(clusters, max, 0, max, Sentence);
    CutIs(clusters, max, max, 2 * max, Sentence);
  }

  lemma MiddleCut(clusters: seq<string>, max: nat)
    requires CutsLikeOvertaken(clusters, max)
    ensures CutAfter(clusters, max, 2 * max) == Ok(2 * max + 1)
  {
    CutIs(clusters, max, 2 * max, 2 * max + 1, Sentence);
  }

  lemma LastCuts(clusters: seq<string>, max: nat)
    requires CutsLikeOvertaken(clusters, max)
    ensures CutAfter(clusters, max, 2 * max + 1) == Ok(2 * max + 4)
    ensures CutAfter(clusters, max, 2 * max + 4) == Ok(|clusters|)
  {
    CutIs(clusters, max, 2 * max + 1, 2 * max + 4, Clause);
    SingleSize(clusters, 2 * max + 4, |clusters|);
  }

  lemma LastPieces(clusters: seq<string>, max: nat, p: seq<string>)
    requires CutsLikeOvertaken(clusters, max) && |p| == 5
    requires p[3] == Join(clusters[2 * max + 1..2 * max + 4]) && p[4] == Join(clusters[2 * max + 4..|clusters|])
    ensures Pieces(clusters, max, 2 * max + 1) == Ok(p[3..])
  {
    LastCuts(clusters, max);
    PieceStep(clusters, max, 2 * max + 4, |clusters|, p[4], [], p[4..]);
    PieceStep(clusters, max, 2 * max + 1, 2 * max + 4, p[3], p[4..], p[3..]);
  }

  lemma MiddlePiece(clusters: seq<string>, max: nat, p: seq<string>)
    requires CutsLikeOvertaken(clusters, max) && |p| == 5 && p[2] == Join(clusters[2 * max..2 * max + 1])
    requires Pieces(clusters, max, 2 * max + 1) == Ok(p[3..])
    ensures Pieces(clusters, max, 2 * max) == Ok(p[2..])
  {
    MiddleCut(clusters, max);
    PieceStep(clusters, max, 2 * max, 2 * max + 1, p[2], p[3..], p[2..]);
  }

  lemma FirstPieces(clusters: seq<string>, max: nat, p: seq<string>)
    requires CutsLikeOvertaken(clusters, max) && |p| == 5
    requires p[0] == Join(clusters[0..max]) && p[1] == Join(clusters[max..2 * max])
    requires Pieces(clusters, max, 2 * max) == Ok(p[2..])
    ensures Pieces(clusters, max, 0) == Ok(p)
  {
    FirstCuts(clusters, max);
    PieceStep(clusters, max, max, 2 * max, p[1], p[2..], p[1..]);
    PieceStep(clusters, max, 0, max, p[0], p[1..], p);
  }

  /** The cut loop cuts after the budget, after twice the budget, after the space, and after the clause. */
  lemma OvertakenIsCut(clusters: seq<string>, max: nat, p: seq<string>)
    requires CutsLikeOvertaken(clusters, max) && |p| == 5
    requires p[0] == Join(clusters[0..max]) && p[1] == Join(clusters[max..2 * max])
    requires p[2] == Join(clusters[2 * max..2 * max + 1]) && p[3] == Join(clusters[2 * max + 1..2 * max + 4])
    requires p[4] == Join(clusters[2 * max + 4..|clusters|])
    ensures Pieces(clusters, max, 0) == Ok(p)
  {
    LastPieces(clusters, max, p);
    MiddlePiece(clusters, max, p);
    FirstPieces(clusters, max, p);
  }

  function OvertakenPiece(max: nat, lo: nat, hi: nat): string
    requires lo <= hi <= OvertakenLength(max)
  {
    Join(Overtaken(max)[lo..hi])
  }

  function OvertakenPieces(max: nat): seq<string> {
    var n := 2 * max;
    [OvertakenPiece(max, 0, max), OvertakenPiece(max, max, n), OvertakenPiece(max, n, n + 1),
     OvertakenPiece(max, n + 1, n + 4), OvertakenPiece(max, n + 4, OvertakenLength(max))]
  }

  lemma OvertakenPiecesAre(max: nat, clusters: seq<string>, p: seq<string>)
    requires max >= 9 && clusters == Overtaken(max) && p == OvertakenPieces(max)
    ensures |p| == 5 && p[0] == Join(clusters[0..max]) && p[1] == Join(clusters[max..2 * max])
    ensures p[2] == Join(clusters[2 * max..2 * max + 1]) && p[3] == Join(clusters[2 * max + 1..2 * max + 4])
    ensures p[4] == Join(clusters[2 * max + 4..|clusters|])
  {
  }

  /** Length and blankness of a piece, read off its range. */
  lemma OvertakenPieceShape(max: nat, lo: nat, hi: nat)
    requires max > 0 && lo < hi <= OvertakenLength(max)
    ensures |OvertakenPiece(max, lo, hi)| == hi - lo
    ensures OvertakenPiece(max, lo, hi)[0] == OvertakenAt(max, lo)[0]
    ensures 1 <= lo && hi <= 2 * max + 1 ==> Blank(OvertakenPiece(max, lo, hi))
    ensures lo == 0 || (2 * max < lo && lo % 2 == 0) || lo == 2 * max + 1 ==> !Blank(OvertakenPiece(max, lo, hi))
  {
    var clusters := Overtaken(max);
    SingleSize(clusters, lo, hi);
    SizeIsLength(clusters, lo, hi);
    BlankSlice(clusters, lo, hi);
    SymbolSpaces(max, lo);
    assert clusters[lo..hi][0] == clusters[lo];
    assert OvertakenPiece(max, lo, hi) == clusters[lo] + Join(clusters[lo..hi][1..]);
    if 1 <= lo && hi <= 2 * max + 1 {
      assert IsSpace("\n"[0]) && IsSpace(" "[0]);
      assert forall i | lo <= i < hi :: Blank(clusters[i]);
    }
  }

  lemma AttachStep(pieces: seq<string>, k: nat, ceiling: nat, attached: seq<string>, pending: string)
    requires k < |pieces|
    ensures Attach(pieces[k..], ceiling, attached, pending)
         == (if Blank(pieces[k]) then
               if attached != [] && |LastOf(attached)| + |pieces[k]| <= ceiling
               then Attach(pieces[k + 1..], ceiling, ExtendLast(attached, pieces[k]), pending)
               else Attach(pieces[k + 1..], ceiling, attached, pending + pieces[k])
             else if |pending + pieces[k]| > ceiling then Err(SeparatorTooLong)
             else Attach(pieces[k + 1..], ceiling, attached + [pending + pieces[k]], ""))
  {
    assert pieces[k..][0] == pieces[k] && pieces[k..][1..] == pieces[k + 1..];
  }

  /** The second piece does not fit, the third does and overtakes it. */
  lemma OvertakenIsAttached(p: seq<string>, ceiling: nat)
    requires |p| == 5 && !Blank(p[0]) && Blank(p[1]) && Blank(p[2]) && !Blank(p[3]) && !Blank(p[4])
    requires |p[0]| + |p[1]| > ceiling && |p[0]| + |p[2]| <= ceiling && |p[1]| + |p[3]| <= ceiling && |p[4]| <= ceiling
    ensures Attach(p, ceiling, [], "") == Ok([p[0] + p[2], p[1] + p[3], p[4]])
  {
    assert p[0..] == p && "" + p[0] == p[0] && "" + p[1] == p[1] && "" + p[4] == p[4];
    assert [] + [p[0]] == [p[0]];
    AttachStep(p, 0, ceiling, [], "");
    AttachStep(p, 1, ceiling, [p[0]], "");
    assert ExtendLast([p[0]], p[2]) == [p[0] + p[2]];
    AttachStep(p, 2, ceiling, [p[0]], p[1]);
    assert [p[0] + p[2]] + [p[1] + p[3]] == [p[0] + p[2], p[1] + p[3]];
    AttachStep(p, 3, ceiling, [p[0] + p[2]], p[1]);
    assert [p[0] + p[2], p[1] + p[3]] + [p[4]] == [p[0] + p[2], p[1] + p[3], p[4]];
    AttachStep(p, 4, ceiling, [p[0] + p[2], p[1] + p[3]], "");
    assert p[5..] == [];
  }

  /** Moving the third piece before the second shows where their first characters differ. */
  lemma SwappedDiffers(p: seq<string>)
    requires |p| == 5 && |p[1]| > 0 && |p[2]| > 0 && p[1][0] != p[2][0]
    ensures Join([p[0] + p[2], p[1] + p[3], p[4]]) != Join(p)
  {
    var swapped, k := [p[0] + p[2], p[1] + p[3], p[4]], |p[0]|;
    assert Join(swapped) == (p[0] + p[2]) + Join(swapped[1..]);
    assert Join(swapped)[k] == p[2][0];
    assert p[1..][0] == p[1];
    assert Join(p) == p[0] + (p[1] + Join(p[1..][1..]));
    assert Join(p)[k] == p[1][0];
  }

  /**
   * Without the bound on blank runs a returned split can reorder the text, at every budget from nine
   * code points on: the last space of the run overtakes the line breaks before it.
   */
  lemma LongBlankRunIsReordered(max: nat)
    requires max >= 9
    ensures ProperClusters(Overtaken(max)) && !BlankRunsFit(Overtaken(max), max)
    ensures Split(Overtaken(max), max).Ok? && Join(Split(Overtaken(max), max).value) != Join(Overtaken(max))
  {
    var p := OvertakenPieces(max);
    OvertakenCuts(max);
    OvertakenPiecesAre(max, Overtaken(max), p);
    OvertakenIsCut(Overtaken(max), max, p);
    OvertakenPiecesShape(max, p);
    SwappedIsReturned(Overtaken(max), max, p);
    OvertakenRunIsLong(max);
  }

  lemma OvertakenPiecesShape(max: nat, p: seq<string>)
    requires max >= 9 && p == OvertakenPieces(max)
    ensures |p| == 5 && !Blank(p[0]) && Blank(p[1]) && Blank(p[2]) && !Blank(p[3]) && !Blank(p[4])
    ensures |p[0]| == max && |p[1]| == max && |p[2]| == 1 && |p[3]| == 3 && |p[4]| <= max
    ensures p[1][0] != p[2][0]
  {
    OvertakenBlankShape(max, p[1], p[2]);
    OvertakenPieceShape(max, 0, max);
    OvertakenPieceShape(max, 2 * max + 1, 2 * max + 4);
    OvertakenPieceShape(max, 2 * max + 4, OvertakenLength(max));
  }

  lemma OvertakenBlankShape(max: nat, lines: string, space: string)
    requires max >= 9 && lines == OvertakenPiece(max, max, 2 * max) && space == OvertakenPiece(max, 2 * max, 2 * max + 1)
    ensures Blank(lines) && Blank(space) && |lines| == max && |space| == 1 && lines[0] != space[0]
  {
    OvertakenPieceShape(max, max, 2 * max);
    OvertakenPieceShape(max, 2 * max, 2 * max + 1);
  }

  lemma SwappedIsReturned(clusters: seq<string>, max: nat, p: seq<string>)
    requires Pieces(clusters, max, 0) == Ok(p) && |p| == 5
    requires !Blank(p[0]) && Blank(p[1]) && Blank(p[2]) && !Blank(p[3]) && !Blank(p[4])
    requires max >= 9 && |p[0]| == max && |p[1]| == max && |p[2]| == 1 && |p[3]| == 3 && |p[4]| <= max && p[1][0] != p[2][0]
    ensures Split(clusters, max).Ok? && Join(Split(clusters, max).value) != Join(clusters)
  {
    OvertakenIsAttached(p, max + SEPARATOR_OVERSHOOT);
    SwappedDiffers(p);
    PiecesSpellText(clusters, max);
  }

  lemma OvertakenRunIsLong(max: nat)
    requires max >= 9
    ensures !BlankRunsFit(Overtaken(max), max)
  {
    var clusters := Overtaken(max);
    assert IsSpace("\n"[0]);
    assert BlankRun(clusters, 1, 2 * max);
    SingleSize(clusters, 1, 2 * max);
  }
}
