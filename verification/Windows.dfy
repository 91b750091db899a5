/** Planning contiguous passage windows (packages/gemma-director/src/chunking.ts). */
module Windows {

  /** UTF-16 lengths of one source passage. */
  datatype SizedPassage = SizedPassage(idLength: nat, textLength: nat)

  datatype Settings = Settings(
    windowCharBudget: nat,
    windowPassageBudget: nat,
    outputCharsBudget: nat,
    splitFactor: real,
    overheadPerFragment: nat,
    contextReserveTokens: nat,
    charsPerToken: real,
    maxWindowShrinks: nat)

  /** What `resolveChunkingSettings` lets through. */
  predicate ValidSettings(s: Settings) {
    && s.windowCharBudget >= 1 && s.windowPassageBudget >= 1 && s.outputCharsBudget >= 1
    && s.overheadPerFragment >= 1 && s.contextReserveTokens >= 1 && s.maxWindowShrinks >= 1
    && s.splitFactor >= 1.0 && s.charsPerToken >= 1.0
  }

  function Ceil(x: real): int {
    -(-x).Floor
  }

  function EstimateOutput(chars: nat, count: nat, s: Settings): int {
    Ceil(s.splitFactor * chars as real + s.splitFactor * s.overheadPerFragment as real * count as real)
  }

  predicate WindowFits(chars: nat, count: nat, s: Settings) {
    && chars <= s.windowCharBudget
    && count <= s.windowPassageBudget
    && EstimateOutput(chars, count, s) <= s.outputCharsBudget
  }

  function Chars(passages: seq<SizedPassage>, lo: nat, hi: nat): nat
    requires lo <= hi <= |passages|
    decreases hi - lo
  {
    if lo == hi then 0 else Chars(passages, lo, hi - 1) + passages[hi - 1].textLength
  }

  predicate RangeFits(passages: seq<SizedPassage>, lo: nat, hi: nat, s: Settings)
    requires lo <= hi <= |passages|
  {
    WindowFits(Chars(passages, lo, hi), hi - lo, s)
  }

  /** A window the planner may emit: any single passage, or several that fit every budget. */
  predicate Admissible(passages: seq<SizedPassage>, lo: nat, hi: nat, s: Settings) {
    lo < hi <= |passages| && (hi == lo + 1 || RangeFits(passages, lo, hi, s))
  }

  // ---------------------------------------------------------------- one window

  function PlanEnd(passages: seq<SizedPassage>, start: nat, end: nat, s: Settings): (r: nat)
    requires start <= end <= |passages|
    ensures end <= r <= |passages|
    decreases |passages| - end
  {
    if end < |passages| && Admissible(passages, start, end + 1, s)
    then PlanEnd(passages, start, end + 1, s)
    else end
  }

  /** End of the window planned at `start`. */
  function Planned(passages: seq<SizedPassage>, start: nat, s: Settings): (r: nat)
    requires start < |passages|
    ensures start < r <= |passages|
  {
    PlanEnd(passages, start, start, s)
  }

  method PlanWindow(passages: seq<SizedPassage>, start: nat, s: Settings) returns (end: nat)
    requires start < |passages|
    ensures end == Planned(passages, start, s)
  {
    end := start;
    var chars := 0;
    while end < |passages|
      invariant start <= end <= |passages|
      invariant chars == Chars(passages, start, end)
      invariant PlanEnd(passages, start, end, s) == Planned(passages, start, s)
    {
      var next := passages[end].textLength;
      var count := end - start + 1;
      if count > 1 && !WindowFits(chars + next, count, s) {
        break;
      }
      chars := chars + next;
      end := end + 1;
    }
  }

  lemma ScaledIsMonotone(factor: real, a: nat, b: nat)
    requires factor >= 0.0 && a <= b
    ensures factor * a as real <= factor * b as real
  {
    var difference := b as real - a as real;
    assert factor * b as real == factor * a as real + factor * difference;
  }

  lemma CeilIsMonotone(x: real, y: real)
    requires x <= y
    ensures Ceil(x) <= Ceil(y)
  {
  }

  lemma EstimateIsMonotone(chars: nat, count: nat, chars': nat, count': nat, s: Settings)
    requires s.splitFactor >= 1.0 && chars <= chars' && count <= count'
    ensures EstimateOutput(chars, count, s) <= EstimateOutput(chars', count', s)
  {
    ScaledIsMonotone(s.splitFactor, chars, chars');
    ScaledIsMonotone(s.splitFactor, 0, s.overheadPerFragment);
    ScaledIsMonotone(s.splitFactor * s.overheadPerFragment as real, count, count');
    CeilIsMonotone(s.splitFactor * chars as real + s.splitFactor * s.overheadPerFragment as real * count as real,
                   s.splitFactor * chars' as real + s.splitFactor * s.overheadPerFragment as real * count' as real);
  }

  lemma FitsIsDownward(chars: nat, count: nat, chars': nat, count': nat, s: Settings)
    requires s.splitFactor >= 1.0 && chars <= chars' && count <= count' && WindowFits(chars', count', s)
    ensures WindowFits(chars, count, s)
  {
    EstimateIsMonotone(chars, count, chars', count', s);
  }

  lemma {:induction false} CharsWithin(passages: seq<SizedPassage>, lo: nat, a: nat, b: nat, hi: nat)
    requires lo <= a <= b <= hi <= |passages|
    ensures Chars(passages, a, b) <= Chars(passages, lo, hi)
    decreases hi - lo
  {
    if b < hi {
      CharsWithin(passages, lo, a, b, hi - 1);
    } else if a < b {
      CharsWithin(passages, lo, a, b - 1, hi - 1);
    }
  }

  /** Any part of an admissible window is admissible. */
  lemma PartIsAdmissible(passages: seq<SizedPassage>, lo: nat, a: nat, b: nat, hi: nat, s: Settings)
    requires s.splitFactor >= 1.0 && Admissible(passages, lo, hi, s) && lo <= a < b <= hi
    ensures Admissible(passages, a, b, s)
  {
    CharsWithin(passages, lo, a, b, hi);
    if hi > lo + 1 {
      FitsIsDownward(Chars(passages, a, b), b - a, Chars(passages, lo, hi), hi - lo, s);
    }
  }

  lemma {:induction false} PlanEndIsAdmissible(passages: seq<SizedPassage>, start: nat, end: nat, s: Settings)
    requires start <= end <= |passages| && (start < end ==> Admissible(passages, start, end, s))
    ensures var r := PlanEnd(passages, start, end, s);
            && (start < r ==> Admissible(passages, start, r, s))
            && (r < |passages| ==> !Admissible(passages, start, r + 1, s))
    decreases |passages| - end
  {
    if end < |passages| && Admissible(passages, start, end + 1, s) {
      PlanEndIsAdmissible(passages, start, end + 1, s);
    }
  }

  /** The planned window is the longest admissible one at its start. */
  lemma PlannedIsLongest(passages: seq<SizedPassage>, start: nat, s: Settings)
    requires start < |passages| && s.splitFactor >= 1.0
    ensures Admissible(passages, start, Planned(passages, start, s), s)
    ensures forall hi: nat | Admissible(passages, start, hi, s) :: hi <= Planned(passages, start, s)
  {
    PlanEndIsAdmissible(passages, start, start, s);
    var end := Planned(passages, start, s);
    forall hi: nat | Admissible(passages, start, hi, s) ensures hi <= end {
      if end < hi {
        PartIsAdmissible(passages, start, start, end + 1, hi, s);
      }
    }
  }

  // ---------------------------------------------------------------- the whole chapter

  function PlanFrom(passages: seq<SizedPassage>, start: nat, s: Settings): seq<nat>
    requires start <= |passages|
    decreases |passages| - start
  {
    if start == |passages| then []
    else
      var end := Planned(passages, start, s);
      [end] + PlanFrom(passages, end, s)
  }

  /** `ends` cuts `passages[start..]` into consecutive admissible windows. */
  predicate IsPlan(passages: seq<SizedPassage>, start: nat, ends: seq<nat>, s: Settings)
    decreases |ends|
  {
    if ends == [] then start == |passages|
    else Admissible(passages, start, ends[0], s) && IsPlan(passages, ends[0], ends[1..], s)
  }

  method PlanChapterWindows(passages: seq<SizedPassage>, s: Settings) returns (ends: seq<nat>)
    ensures ends == PlanFrom(passages, 0, s)
  {
    ends := [];
    var start := 0;
    while start < |passages|
      invariant start <= |passages|
      invariant ends + PlanFrom(passages, start, s) == PlanFrom(passages, 0, s)
    {
      var end := PlanWindow(passages, start, s);
      ends := ends + [end];
      start := end;
    }
    assert ends + [] == ends;
  }

  lemma {:induction false} PlanIsPlan(passages: seq<SizedPassage>, start: nat, s: Settings)
    requires start <= |passages| && s.splitFactor >= 1.0
    ensures IsPlan(passages, start, PlanFrom(passages, start, s), s)
    decreases |passages| - start
  {
    if start < |passages| {
      PlannedIsLongest(passages, start, s);
      PlanIsPlan(passages, Planned(passages, start, s), s);
    }
  }

  /** No plan of the chapter, even one that starts earlier, has fewer windows. */
  lemma {:induction false} PlanHasFewestWindows(passages: seq<SizedPassage>, start: nat, s: Settings,
                                                from: nat, other: seq<nat>)
    requires from <= start <= |passages| && s.splitFactor >= 1.0
    requires IsPlan(passages, from, other, s)
    ensures |PlanFrom(passages, start, s)| <= |other|
    decreases |passages| - start
  {
    if start < |passages| {
      var end := Planned(passages, start, s);
      PlannedIsLongest(passages, start, s);
      if start < other[0] {
        PartIsAdmissible(passages, from, start, other[0], other[0], s);
      }
      PlanHasFewestWindows(passages, end, s, other[0], other[1..]);
    }
  }

  // ---------------------------------------------------------------- shrinking

  function Shrink(s: Settings): Settings {
    s.(windowCharBudget := if s.windowCharBudget / 2 < 500 then 500 else s.windowCharBudget / 2,
       windowPassageBudget := if s.windowPassageBudget / 2 < 1 then 1 else s.windowPassageBudget / 2)
  }

  /** The floor of 500 is not a raise, or the passage or output budget already excludes the raise. */
  predicate NeverLengthens(s: Settings) {
    || s.windowCharBudget >= 500
    || s.windowPassageBudget < 4
    || EstimateOutput(s.windowCharBudget + 1, 2, s) > s.outputCharsBudget
  }

  lemma ShrunkPlanStays(passages: seq<SizedPassage>, start: nat, s: Settings)
    requires ValidSettings(s) && start < |passages|
    requires NeverLengthens(s)
    ensures Planned(passages, start, Shrink(s)) <= Planned(passages, start, s)
  {
    var end := Planned(passages, start, Shrink(s));
    PlannedIsLongest(passages, start, Shrink(s));
    PlannedIsLongest(passages, start, s);
    if end > start + 1 {
      var chars := Chars(passages, start, end);
      assert EstimateOutput(chars, end - start, s) == EstimateOutput(chars, end - start, Shrink(s));
      if chars > s.windowCharBudget {
        EstimateIsMonotone(s.windowCharBudget + 1, 2, chars, end - start, s);
      }
      assert Admissible(passages, start, end, s);
    } else {
      assert Admissible(passages, start, end, s);
    }
  }

  /** Shrinking lengthens no planned window of any chapter exactly under `NeverLengthens`. */
  lemma ShrinkNeverLengthensIff(s: Settings)
    requires ValidSettings(s)
    ensures (forall passages: seq<SizedPassage>, start: nat | start < |passages|
               :: Planned(passages, start, Shrink(s)) <= Planned(passages, start, s))
       <==> NeverLengthens(s)
  {
    if NeverLengthens(s) {
      forall passages: seq<SizedPassage>, start: nat | start < |passages|
        ensures Planned(passages, start, Shrink(s)) <= Planned(passages, start, s)
      {
        ShrunkPlanStays(passages, start, s);
      }
    } else {
      var passages := [SizedPassage(1, s.windowCharBudget), SizedPassage(1, 1)];
      assert Chars(passages, 0, 1) == Chars(passages, 0, 0) + s.windowCharBudget;
      assert Chars(passages, 0, 2) == s.windowCharBudget + 1;
      PlannedIsLongest(passages, 0, s);
      PlannedIsLongest(passages, 0, Shrink(s));
      assert EstimateOutput(s.windowCharBudget + 1, 2, s) == EstimateOutput(s.windowCharBudget + 1, 2, Shrink(s));
      assert Admissible(passages, 0, 2, Shrink(s));
      assert !Admissible(passages, 0, 2, s);
    }
  }
}
