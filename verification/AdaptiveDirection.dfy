/**
 * Directing one chapter window by window (packages/gemma-director/src/gemma-director-model.ts and
 * fidelity-recovery.ts): bounded resampling inside a window, shrinking between windows.
 */
module AdaptiveDirection {
  import opened Windows
  import opened Wrappers

  // ---------------------------------------------------------------- sampling attempts

  datatype Sampling = Sampling(seed: int, temperature: real, topP: real, maxTokens: nat, confidenceThreshold: real)

  datatype Retry = Retry(seedOffset: int, temperature: real, topP: real)

  const RETRIES: seq<Retry> := [Retry(1, 0.2, 0.95), Retry(2, 0.4, 0.9)]

  function Resampled(initial: Sampling, retry: Retry): Sampling {
    initial.(seed := initial.seed + retry.seedOffset, temperature := retry.temperature, topP := retry.topP)
  }

  predicate Distinct<T(==)>(items: seq<T>) {
    forall i, j | 0 <= i < j < |items| :: items[i] != items[j]
  }

  /** Keeps the first occurrence of each candidate; all three policy profiles survive. */
  method SamplingAttempts(initial: Sampling) returns (attempts: seq<Sampling>)
    ensures |attempts| == 3 && attempts[0] == initial && Distinct(attempts)
    ensures forall k | 1 <= k < 3 :: attempts[k] == Resampled(initial, RETRIES[k - 1])
  {
    var candidates := [initial, Resampled(initial, RETRIES[0]), Resampled(initial, RETRIES[1])];
    assert Distinct(candidates);
    var seen: set<Sampling> := {};
    attempts := [];
    for i := 0 to |candidates|
      invariant attempts == candidates[..i]
      invariant forall c :: c in seen <==> c in candidates[..i]
    {
      if candidates[i] !in seen {
        seen := seen + {candidates[i]};
        attempts := attempts + [candidates[i]];
      }
    }
  }

  /** How one request ends. `Late` means the window's deadline passed before it was sent. */
  datatype Attempt = Accepted | Rejected | Truncated | Fatal | Late

  datatype Answer = Directed | TooLarge | Failed

  /** `n` attempts are rejected, and the next one is not, if there is one. */
  predicate RejectsFirst(respond: nat -> Attempt, n: nat) {
    n <= 3 && (forall k | 0 <= k < n :: respond(k) == Rejected) && (n < 3 ==> respond(n) != Rejected)
  }

  /** What a window comes to whose first `n` attempts are rejected. */
  function AnswerAfter(respond: nat -> Attempt, n: nat): Answer {
    if n >= 3 then TooLarge else
      match respond(n)
      case Accepted => Directed
      case Truncated => TooLarge
      case _ => Failed
  }

  /** How many profiles are sent then: a late attempt is never sent. */
  function SentAfter(respond: nat -> Attempt, n: nat): nat {
    if n >= 3 then 3 else if respond(n) == Late then n else n + 1
  }

  /** The answer is that of the first attempt that is not rejected. */
  ghost predicate Answers(respond: nat -> Attempt, answer: Answer) {
    exists n: nat :: RejectsFirst(respond, n) && answer == AnswerAfter(respond, n)
  }

  /**
   * Sends the sampling attempts in turn until one is not rejected. A window counts as too large when
   * a response was truncated or when every attempt was rejected.
   */
  method ExecuteWindow(initial: Sampling, respond: nat -> Attempt)
    returns (answer: Answer, sent: seq<Sampling>, ghost rejected: nat)
    ensures RejectsFirst(respond, rejected) && answer == AnswerAfter(respond, rejected)
    ensures |sent| == SentAfter(respond, rejected) && (sent != [] ==> sent[0] == initial)
    ensures forall k | 1 <= k < |sent| :: sent[k] == Resampled(initial, RETRIES[k - 1])
    ensures Distinct(sent)
  {
    var attempts := SamplingAttempts(initial);
    for i := 0 to 3
      invariant forall k: nat | k < i :: respond(k) == Rejected
    {
      sent, rejected := attempts[..i], i;
      if respond(i) == Late { return Failed, sent, i; }
      sent := attempts[..i + 1];
      match respond(i)
      case Accepted => return Directed, sent, i;
      case Truncated => return TooLarge, sent, i;
      case Fatal => return Failed, sent, i;
      case Rejected =>
    }
    return TooLarge, attempts, 3;
  }

  /** A window is directed iff one of three attempts is accepted after rejections only, and so on for the other answers. */
  lemma AnswersIff(respond: nat -> Attempt, answer: Answer)
    requires Answers(respond, answer)
    ensures answer == Directed <==> exists n | 0 <= n < 3 :: respond(n) == Accepted && forall k | 0 <= k < n :: respond(k) == Rejected
    ensures answer == TooLarge <==>
              (exists n | 0 <= n < 3 :: respond(n) == Truncated && forall k | 0 <= k < n :: respond(k) == Rejected)
              || (forall k | 0 <= k < 3 :: respond(k) == Rejected)
    ensures answer == Failed <==>
              exists n | 0 <= n < 3 :: respond(n) in {Late, Fatal} && forall k | 0 <= k < n :: respond(k) == Rejected
  {
    var n: nat :| RejectsFirst(respond, n) && answer == AnswerAfter(respond, n);
    forall m | 0 <= m < 3 && respond(m) != Rejected && forall k | 0 <= k < m :: respond(k) == Rejected ensures m == n {
    }
  }

  // ---------------------------------------------------------------- prompt budget and shrinking

  datatype Limits = Limits(fixedPromptChars: nat, contextSize: int, maxOutputTokens: int)

  function PassageChars(passages: seq<SizedPassage>, lo: nat, hi: nat): (r: nat)
    requires lo <= hi <= |passages|
    ensures lo < hi ==> r >= passages[lo].idLength + passages[lo].textLength + 40
    decreases hi - lo
  {
    if lo == hi then 0
    else PassageChars(passages, lo, hi - 1) + passages[hi - 1].idLength + passages[hi - 1].textLength + 40
  }

  predicate PromptFits(passages: seq<SizedPassage>, lo: nat, hi: nat, limits: Limits, s: Settings)
    requires lo <= hi <= |passages| && s.charsPerToken >= 1.0
  {
    var promptChars := limits.fixedPromptChars + PassageChars(passages, lo, hi);
    Ceil(promptChars as real / s.charsPerToken) <= limits.contextSize - s.contextReserveTokens - limits.maxOutputTokens
  }

  predicate OutputFits(passages: seq<SizedPassage>, lo: nat, hi: nat, s: Settings)
    requires lo <= hi <= |passages|
  {
    EstimateOutput(Chars(passages, lo, hi), hi - lo, s) <= s.outputCharsBudget
  }

  /** The window may be sent: its prompt and its estimated response are both within budget. */
  predicate Sendable(passages: seq<SizedPassage>, lo: nat, hi: nat, limits: Limits, s: Settings)
    requires lo <= hi <= |passages| && s.charsPerToken >= 1.0
  {
    PromptFits(passages, lo, hi, limits, s) && OutputFits(passages, lo, hi, s)
  }

  /** The passage is over a budget even in a window of its own. */
  predicate CannotBeSent(passages: seq<SizedPassage>, passage: nat, limits: Limits, s: Settings)
    requires s.charsPerToken >= 1.0
  {
    passage < |passages| && !Sendable(passages, passage, passage + 1, limits, s)
  }

  function Shrunk(s: Settings, halvings: nat): (r: Settings)
    ensures ValidSettings(s) ==> ValidSettings(r)
    ensures r == s.(windowCharBudget := r.windowCharBudget, windowPassageBudget := r.windowPassageBudget)
    ensures halvings > 0 ==> r.windowCharBudget >= 500
  {
    if halvings == 0 then s else Shrink(Shrunk(s, halvings - 1))
  }

  lemma {:induction false} ShrunkPlansShorten(passages: seq<SizedPassage>, start: nat, s: Settings, few: nat, many: nat)
    requires ValidSettings(s) && NeverLengthens(s) && start < |passages| && few <= many
    ensures Planned(passages, start, Shrunk(s, many)) <= Planned(passages, start, Shrunk(s, few))
    decreases many - few
  {
    if few < many {
      ShrunkPlansShorten(passages, start, s, few, many - 1);
      ShrunkPlanStays(passages, start, Shrunk(s, many - 1));
    }
  }

  /** The end of the window planned at `start` after so many halvings. */
  function PlannedAfter(passages: seq<SizedPassage>, start: nat, s: Settings, halvings: nat): nat
    requires ValidSettings(s) && start < |passages|
  {
    Planned(passages, start, Shrunk(s, halvings))
  }

  /** How often the plan at `start` moves while the settings are halved on. */
  function Moves(passages: seq<SizedPassage>, start: nat, s: Settings, few: nat, many: nat): nat
    requires ValidSettings(s) && start < |passages| && few <= many
    decreases many
  {
    if few == many then 0
    else
      Moves(passages, start, s, few, many - 1)
      + if PlannedAfter(passages, start, s, many - 1) == PlannedAfter(passages, start, s, many) then 0 else 1
  }

  lemma {:induction false} StaysPut(passages: seq<SizedPassage>, start: nat, s: Settings, few: nat, mid: nat, many: nat)
    requires ValidSettings(s) && start < |passages| && few <= mid <= many
    requires forall k | mid <= k <= many :: PlannedAfter(passages, start, s, k) == PlannedAfter(passages, start, s, mid)
    ensures Moves(passages, start, s, few, many) == Moves(passages, start, s, few, mid)
    decreases many - mid
  {
    if mid < many {
      StaysPut(passages, start, s, few, mid, many - 1);
    }
  }

  /** Halving until the plan moves moves it once. */
  lemma MovesOnce(passages: seq<SizedPassage>, start: nat, s: Settings, few: nat, mid: nat, many: nat)
    requires ValidSettings(s) && start < |passages| && few <= mid < many
    requires forall k | mid <= k < many :: PlannedAfter(passages, start, s, k) == PlannedAfter(passages, start, s, mid)
    requires PlannedAfter(passages, start, s, many) != PlannedAfter(passages, start, s, mid)
    ensures Moves(passages, start, s, few, many) == Moves(passages, start, s, few, mid) + 1
  {
    StaysPut(passages, start, s, few, mid, many - 1);
  }

  /** The prompt of the window planned after so many halvings is over the budget. */
  predicate Overflows(passages: seq<SizedPassage>, start: nat, s: Settings, limits: Limits, halvings: nat)
    requires ValidSettings(s) && start < |passages|
  {
    var end := PlannedAfter(passages, start, s, halvings);
    start <= end <= |passages| && !PromptFits(passages, start, end, limits, s)
  }

  /**
   * Starting after `few` halvings, all shrinks that were left moved the plan once each, every
   * window planned on the way overflowed the prompt, and so does the last one, of several passages.
   */
  predicate ShrunkInVain(passages: seq<SizedPassage>, start: nat, s: Settings, limits: Limits, few: nat, many: nat, left: nat)
    requires ValidSettings(s) && start < |passages|
  {
    && few <= many && Moves(passages, start, s, few, many) == left
    && (forall k | few <= k <= many :: Overflows(passages, start, s, limits, k))
    && PlannedAfter(passages, start, s, many) > start + 1
  }

  /** Halves at least once, and again until the plan at `start` moves. It always moves. */
  method ShrinkUntilMoved(passages: seq<SizedPassage>, start: nat, s: Settings, halvings: nat, previousEnd: nat)
    returns (halved: nat, end: nat)
    requires ValidSettings(s) && start + 1 < previousEnd <= |passages| && previousEnd == PlannedAfter(passages, start, s, halvings)
    ensures halved > halvings && end == PlannedAfter(passages, start, s, halved) && end != previousEnd
    ensures forall k | halvings <= k < halved :: PlannedAfter(passages, start, s, k) == previousEnd
  {
    halved := halvings + 1;
    var settings := Shrink(Shrunk(s, halvings));
    end := PlanWindow(passages, start, settings);
    while end == previousEnd && (settings.windowCharBudget > 500 || settings.windowPassageBudget > 1)
      invariant halved > halvings && settings == Shrunk(s, halved) && end == Planned(passages, start, settings)
      invariant forall k | halvings <= k < halved :: PlannedAfter(passages, start, s, k) == previousEnd
      decreases settings.windowCharBudget + settings.windowPassageBudget
    {
      settings := Shrink(settings);
      halved := halved + 1;
      end := PlanWindow(passages, start, settings);
    }
    PlannedIsLongest(passages, start, settings);
  }

  // ---------------------------------------------------------------- the adaptive loop

  /** One model call: the window, how often the settings had been halved, and the answer. */
  datatype Call = Call(start: nat, end: nat, halvings: nat, answer: Answer)

  datatype Outcome = Stitched | NothingToStitch | TimedOut | SoloTooLong(passage: nat) | OutOfShrinks(halvings: nat) | CallFailed

  function NextStart(calls: seq<Call>): nat {
    if calls == [] then 0 else
      var last := calls[|calls| - 1];
      if last.answer == Directed then last.end else last.start
  }

  predicate GoodCall(passages: seq<SizedPassage>, s: Settings, limits: Limits, call: Call)
    requires s.charsPerToken >= 1.0
  {
    && call.start < |passages|
    && call.end == Planned(passages, call.start, Shrunk(s, call.halvings))
    && Sendable(passages, call.start, call.end, limits, s)
  }

  /** A window resumes where the answered ones end, and a retry uses strictly smaller settings. */
  predicate Follows(passages: seq<SizedPassage>, s: Settings, before: Call, after: Call)
    requires before.start < |passages|
  {
    && after.start == (if before.answer == Directed then before.end else before.start)
    && before.answer != Failed && before.halvings <= after.halvings
    && (before.answer == TooLarge ==> Moved(passages, s, before, after.halvings))
  }

  /** Some halving between the call and `halvings` changes the plan at the call's position. */
  predicate Moved(passages: seq<SizedPassage>, s: Settings, call: Call, halvings: nat)
    requires call.start < |passages|
  {
    exists h | call.halvings < h <= halvings :: Planned(passages, call.start, Shrunk(s, h)) != call.end
  }

  ghost predicate GoodCalls(passages: seq<SizedPassage>, s: Settings, limits: Limits, calls: seq<Call>)
    requires s.charsPerToken >= 1.0
  {
    && (forall i | 0 <= i < |calls| :: GoodCall(passages, s, limits, calls[i]))
    && (forall i, j | 0 <= i < j < |calls| && j == i + 1 :: Follows(passages, s, calls[i], calls[j]))
    && (calls != [] ==> calls[0].start == 0)
  }

  datatype Window = Window(start: nat, end: nat)

  function WithAnswer(windows: seq<Window>, call: Call): seq<Window> {
    if call.answer == Directed then windows + [Window(call.start, call.end)] else windows
  }

  function Answered(calls: seq<Call>): seq<Window> {
    if calls == [] then [] else
      var last := calls[|calls| - 1];
      WithAnswer(Answered(calls[..|calls| - 1]), last)
  }

  /** Consecutive non-empty windows from 0 to `end`. */
  predicate Tiles(windows: seq<Window>, end: nat) {
    if windows == [] then end == 0 else
      var last := windows[|windows| - 1];
      last.start < last.end == end && Tiles(windows[..|windows| - 1], last.start)
  }

  /** Every boundary of a tiling is shared, and the first window starts the chapter. */
  lemma {:induction false} TilesAreConsecutive(windows: seq<Window>, end: nat, k: nat)
    requires Tiles(windows, end) && k < |windows|
    ensures windows[0].start == 0 && (k > 0 ==> windows[k - 1].end == windows[k].start)
  {
    var shorter := windows[..|windows| - 1];
    if |windows| > 1 {
      TilesAreConsecutive(shorter, windows[|windows| - 1].start, if k < |shorter| then k else 0);
    }
  }

  /** The check made before stitching; it can only fail for a chapter without passages. */
  method CheckTiling(sent: seq<Window>, total: nat) returns (tiled: bool)
    requires Tiles(sent, total)
    ensures tiled <==> total > 0
  {
    if sent == [] { return false; }
    TilesAreConsecutive(sent, total, 0);
    tiled := sent[0].start == 0 && sent[|sent| - 1].end == total;
    for i := 1 to |sent|
      invariant tiled
    {
      TilesAreConsecutive(sent, total, i);
      tiled := tiled && sent[i - 1].end == sent[i].start;
    }
  }

  datatype Preflight = Ready(end: nat, halvings: nat, shrinks: nat) | Refused(outcome: Outcome)

  /** Only a window of one passage can exceed the output budget. */
  lemma PlannedOutputFits(passages: seq<SizedPassage>, start: nat, s: Settings, halvings: nat)
    requires ValidSettings(s) && start < |passages|
    ensures var end := Planned(passages, start, Shrunk(s, halvings));
            end == start + 1 || OutputFits(passages, start, end, s)
  {
    PlannedIsLongest(passages, start, Shrunk(s, halvings));
  }

  /** Shrinks the window planned at `start` until it may be sent. */
  method PreflightWindow(passages: seq<SizedPassage>, start: nat, s: Settings, limits: Limits,
                         halvings: nat, shrinks: nat) returns (r: Preflight)
    requires ValidSettings(s) && start < |passages| && shrinks <= s.maxWindowShrinks
    ensures r.Ready? ==>
      && shrinks <= r.shrinks <= s.maxWindowShrinks && halvings <= r.halvings
      && Moves(passages, start, s, halvings, r.halvings) == r.shrinks - shrinks
      && (forall k | halvings <= k < r.halvings :: Overflows(passages, start, s, limits, k))
      && r.end == Planned(passages, start, Shrunk(s, r.halvings))
      && Sendable(passages, start, r.end, limits, s)
    ensures r.Refused? ==>
      || (r.outcome.OutOfShrinks?
          && ShrunkInVain(passages, start, s, limits, halvings, r.outcome.halvings, s.maxWindowShrinks - shrinks))
      || (r.outcome == SoloTooLong(start) && CannotBeSent(passages, start, limits, s))
  {
    var halved, spent := halvings, shrinks;
    var end := PlanWindow(passages, start, Shrunk(s, halved));
    while !PromptFits(passages, start, end, limits, s)
      invariant shrinks <= spent <= s.maxWindowShrinks && halvings <= halved
      invariant Moves(passages, start, s, halvings, halved) == spent - shrinks
      invariant forall k | halvings <= k < halved :: Overflows(passages, start, s, limits, k)
      invariant end == PlannedAfter(passages, start, s, halved)
      decreases s.maxWindowShrinks - spent
    {
      if end - start <= 1 { return Refused(SoloTooLong(start)); }
      spent := spent + 1;
      if spent > s.maxWindowShrinks { return Refused(OutOfShrinks(halved)); }
      ghost var before := halved;
      halved, end := ShrinkUntilMoved(passages, start, s, halved, end);
      MovesOnce(passages, start, s, halvings, before, halved);
    }
    if !OutputFits(passages, start, end, s) {
      PlannedOutputFits(passages, start, s, halved);
      return Refused(SoloTooLong(start));
    }
    return Ready(end, halved, spent);
  }

  lemma CallsGrow(passages: seq<SizedPassage>, s: Settings, limits: Limits, calls: seq<Call>, call: Call)
    requires s.charsPerToken >= 1.0
    requires GoodCalls(passages, s, limits, calls) && GoodCall(passages, s, limits, call)
    requires Tiles(Answered(calls), NextStart(calls)) && call.start == NextStart(calls)
    requires Resumable(passages, s, calls, call.halvings)
    ensures GoodCalls(passages, s, limits, calls + [call])
    ensures Tiles(Answered(calls + [call]), NextStart(calls + [call]))
    ensures NextStart(calls + [call]) == if call.answer == Directed then call.end else call.start
    ensures |calls + [call]| == |calls| + 1 && call.end <= |passages|
    ensures Answered(calls + [call]) == WithAnswer(Answered(calls), call)
  {
    assert (calls + [call])[..|calls|] == calls;
    var answered := Answered(calls + [call]);
    if call.answer == Directed {
      assert answered[..|answered| - 1] == Answered(calls);
    } else {
      assert answered == Answered(calls);
    }
    if calls != [] {
      assert GoodCall(passages, s, limits, calls[|calls| - 1]);
      assert Follows(passages, s, calls[|calls| - 1], call);
    }
  }

  /** Another call may be prepared with the settings halved `halvings` times. */
  predicate Resumable(passages: seq<SizedPassage>, s: Settings, calls: seq<Call>, halvings: nat) {
    calls == [] ||
    var last := calls[|calls| - 1];
    && last.start < |passages| && last.answer != Failed && last.halvings <= halvings
    && (last.answer == TooLarge ==> Moved(passages, s, last, halvings))
  }

  datatype Step = Stopped(outcome: Outcome) | Called(call: Call, halvings: nat, shrinks: nat, gaveUp: bool)

  /** Prepares and makes one model call at `start`, and shrinks after an answer that allows a retry. */
  method DirectNext(passages: seq<SizedPassage>, start: nat, s: Settings, limits: Limits, initial: Sampling,
                    respond: nat -> Attempt, halvings: nat, shrinks: nat) returns (step: Step, requests: nat)
    requires ValidSettings(s) && start < |passages| && shrinks <= s.maxWindowShrinks
    ensures requests <= 3
    ensures step.Stopped? ==>
      || (step.outcome.OutOfShrinks?
          && ShrunkInVain(passages, start, s, limits, halvings, step.outcome.halvings, s.maxWindowShrinks - shrinks))
      || (step.outcome == SoloTooLong(start) && CannotBeSent(passages, start, limits, s))
    ensures step.Called? ==>
      && GoodCall(passages, s, limits, step.call) && Answers(respond, step.call.answer)
      && step.call.start == start < step.call.end <= |passages|
      && halvings <= step.call.halvings <= step.halvings && shrinks <= step.shrinks <= s.maxWindowShrinks
      && (step.call.answer == Directed ==> !step.gaveUp)
      && (step.call.answer == Failed ==> step.gaveUp)
      && (step.call.answer == TooLarge && !step.gaveUp ==>
            shrinks < step.shrinks && Moved(passages, s, step.call, step.halvings))
      && (step.call.answer == TooLarge && step.gaveUp ==>
            step.call.end == start + 1 || step.shrinks == s.maxWindowShrinks)
  {
    requests := 0;
    var preflight := PreflightWindow(passages, start, s, limits, halvings, shrinks);
    if preflight.Refused? { return Stopped(preflight.outcome), 0; }
    ghost var rejected;
    var answer, attempts;
    answer, attempts, rejected := ExecuteWindow(initial, respond);
    var call := Call(start, preflight.end, preflight.halvings, answer);
    requests := |attempts|;
    var halved, spent := preflight.halvings, preflight.shrinks;
    if answer != TooLarge || preflight.end - start <= 1 || spent >= s.maxWindowShrinks {
      return Called(call, halved, spent, answer != Directed), requests;
    }
    var reduced;
    halved, reduced := ShrinkUntilMoved(passages, start, s, halved, preflight.end);
    step := Called(call, halved, spent + 1, false);
  }

  /** The loop's local state. */
  datatype Run = Run(sent: seq<Window>, calls: seq<Call>, requests: nat, halvings: nat, shrinks: nat, next: nat)

  /** Call `k` got what the attempts `respond(k)` come to. */
  ghost predicate AnswersGiven(calls: seq<Call>, respond: nat -> nat -> Attempt) {
    forall k | 0 <= k < |calls| :: Answers(respond(k), calls[k].answer)
  }

  ghost predicate GoodRun(passages: seq<SizedPassage>, s: Settings, limits: Limits, deadline: nat, run: Run,
                          respond: nat -> nat -> Attempt)
    requires s.charsPerToken >= 1.0
  {
    && GoodCalls(passages, s, limits, run.calls)
    && run.sent == Answered(run.calls) && Tiles(run.sent, run.next)
    && run.next == NextStart(run.calls) <= |passages|
    && run.requests <= 3 * |run.calls| && |run.calls| <= |passages| + s.maxWindowShrinks
    && run.shrinks <= s.maxWindowShrinks
    && |run.calls| <= deadline && AnswersGiven(run.calls, respond)
  }

  /** Why a run may end early. */
  predicate Ends(passages: seq<SizedPassage>, s: Settings, limits: Limits, deadline: nat, run: Run, why: Outcome)
    requires ValidSettings(s)
  {
    match why
    case TimedOut => |run.calls| == deadline
    case SoloTooLong(passage) => passage == run.next && CannotBeSent(passages, passage, limits, s)
    case OutOfShrinks(halvings) =>
      && run.next < |passages| && run.shrinks <= s.maxWindowShrinks
      && ShrunkInVain(passages, run.next, s, limits, run.halvings, halvings, s.maxWindowShrinks - run.shrinks)
    case CallFailed =>
      run.calls != [] &&
      var last := run.calls[|run.calls| - 1];
      last.answer == Failed
      || (last.answer == TooLarge && (last.end == last.start + 1 || run.shrinks == s.maxWindowShrinks))
    case _ => false
  }

  function Advanced(run: Run, step: Step, requests: nat): Run
    requires step.Called?
  {
    Run(WithAnswer(run.sent, step.call), run.calls + [step.call], run.requests + requests, step.halvings, step.shrinks,
        if step.call.answer == Directed then step.call.end else run.next)
  }

  lemma AdvancedIsGood(passages: seq<SizedPassage>, s: Settings, limits: Limits, deadline: nat, run: Run,
                       respond: nat -> nat -> Attempt, step: Step, requests: nat)
    requires s.charsPerToken >= 1.0 && GoodRun(passages, s, limits, deadline, run, respond) && run.next < |passages|
    requires Resumable(passages, s, run.calls, run.halvings) && |run.calls| <= run.next + run.shrinks
    requires requests <= 3 && |run.calls| < deadline
    requires step.Called? && GoodCall(passages, s, limits, step.call) && step.call.start == run.next
    requires Answers(respond(|run.calls|), step.call.answer)
    requires run.halvings <= step.call.halvings && run.shrinks <= step.shrinks <= s.maxWindowShrinks
    ensures GoodRun(passages, s, limits, deadline, Advanced(run, step, requests), respond)
  {
    CallsGrow(passages, s, limits, run.calls, step.call);
  }

  method Iterate(passages: seq<SizedPassage>, s: Settings, limits: Limits, initial: Sampling,
                 respond: nat -> nat -> Attempt, deadline: nat, run: Run)
    returns (after: Run, ended: Option<Outcome>)
    requires ValidSettings(s) && GoodRun(passages, s, limits, deadline, run, respond) && run.next < |passages|
    requires Resumable(passages, s, run.calls, run.halvings) && |run.calls| <= run.next + run.shrinks
    ensures GoodRun(passages, s, limits, deadline, after, respond)
    ensures ended.Some? ==> Ends(passages, s, limits, deadline, after, ended.value) && after.next < |passages|
    ensures ended.None? ==> Resumable(passages, s, after.calls, after.halvings)
    ensures ended.None? ==> |after.calls| <= after.next + after.shrinks
    ensures ended.None? ==> run.next + run.shrinks < after.next + after.shrinks
  {
    if |run.calls| >= deadline { return run, Some(TimedOut); }
    var step, requests := DirectNext(passages, run.next, s, limits, initial, respond(|run.calls|),
                                     run.halvings, run.shrinks);
    if step.Stopped? { return run, Some(step.outcome); }
    AdvancedIsGood(passages, s, limits, deadline, run, respond, step, requests);
    after := Advanced(run, step, requests);
    assert after.calls[|after.calls| - 1] == step.call;
    ended := if step.gaveUp then Some(CallFailed) else None;
  }

  /** Each window gets an accepted answer within its three attempts, after rejections only. */
  ghost predicate EveryCallIsDirected(respond: nat -> nat -> Attempt) {
    forall k: nat :: exists n: nat | n < 3 :: RejectsFirst(respond(k), n) && respond(k)(n) == Accepted
  }

  ghost predicate EachPassageFits(passages: seq<SizedPassage>, limits: Limits, s: Settings)
    requires s.charsPerToken >= 1.0
  {
    forall p: nat | p < |passages| :: !CannotBeSent(passages, p, limits, s)
  }

  lemma OneAnswer(respond: nat -> Attempt, n: nat, answer: Answer)
    requires RejectsFirst(respond, n) && Answers(respond, answer)
    ensures answer == AnswerAfter(respond, n)
  {
    var m: nat :| RejectsFirst(respond, m) && answer == AnswerAfter(respond, m);
    assert m < n ==> respond(m) == Rejected;
    assert n < m ==> respond(n) == Rejected;
  }

  /** When the model directs every window, nothing but the shrinks can end a chapter early. */
  lemma OnlyShrinksDecide(passages: seq<SizedPassage>, s: Settings, limits: Limits, deadline: nat, run: Run,
                          respond: nat -> nat -> Attempt, why: Outcome)
    requires ValidSettings(s) && GoodRun(passages, s, limits, deadline, run, respond)
    requires EveryCallIsDirected(respond) && |passages| <= deadline && EachPassageFits(passages, limits, s)
    requires Ends(passages, s, limits, deadline, run, why) && run.next < |passages|
    ensures why.OutOfShrinks?
  {
    forall k | 0 <= k < |run.calls| ensures run.calls[k].answer == Directed {
      var n: nat :| n < 3 && RejectsFirst(respond(k), n) && respond(k)(n) == Accepted;
      OneAnswer(respond(k), n, run.calls[k].answer);
    }
    AnsweredEach(passages, s, limits, run.calls);
    if run.calls != [] {
      assert run.calls[|run.calls| - 1].answer == Directed;
    }
  }

  /** Directed windows are not empty, so there are no more of them than passages behind them. */
  lemma {:induction false} AnsweredEach(passages: seq<SizedPassage>, s: Settings, limits: Limits, calls: seq<Call>)
    requires ValidSettings(s) && GoodCalls(passages, s, limits, calls)
    requires forall k | 0 <= k < |calls| :: calls[k].answer == Directed
    ensures |calls| <= NextStart(calls)
  {
    if calls != [] {
      var before, last := calls[..|calls| - 1], calls[|calls| - 1];
      assert GoodCall(passages, s, limits, last);
      PlannedIsLongest(passages, last.start, Shrunk(s, last.halvings));
      assert forall k | 0 <= k < |before| :: before[k] == calls[k];
      AnsweredEach(passages, s, limits, before);
      if before != [] {
        assert Follows(passages, s, before[|before| - 1], last);
      }
    }
  }

  /**
   * The whole adaptive loop, for every pattern of answers and deadlines. `respond(k)` gives the
   * answers to the attempts of model call `k`; `deadline` is the number of calls that can be prepared
   * before the chapter deadline passes.
   */
  method DirectWindows(passages: seq<SizedPassage>, s: Settings, limits: Limits, initial: Sampling,
                       respond: nat -> nat -> Attempt, deadline: nat)
    returns (outcome: Outcome, run: Run)
    requires ValidSettings(s)
    ensures GoodRun(passages, s, limits, deadline, run, respond)
    ensures |run.calls| <= |passages| + s.maxWindowShrinks && run.requests <= 3 * (|passages| + s.maxWindowShrinks)
    ensures outcome == Stitched <==> passages != [] && Tiles(run.sent, |passages|)
    ensures outcome == NothingToStitch <==> passages == []
    ensures outcome in {Stitched, NothingToStitch} || Ends(passages, s, limits, deadline, run, outcome)
    ensures EveryCallIsDirected(respond) && |passages| <= deadline && EachPassageFits(passages, limits, s) && passages != [] ==>
              outcome == Stitched || outcome.OutOfShrinks?
  {
    run := Run([], [], 0, 0, 0, 0);
    while run.next < |passages|
      invariant GoodRun(passages, s, limits, deadline, run, respond)
      invariant Resumable(passages, s, run.calls, run.halvings) && |run.calls| <= run.next + run.shrinks
      decreases |passages| + s.maxWindowShrinks - run.next - run.shrinks
    {
      var after, ended := Iterate(passages, s, limits, initial, respond, deadline, run);
      run := after;
      if ended.Some? {
        if EveryCallIsDirected(respond) && |passages| <= deadline && EachPassageFits(passages, limits, s) {
          OnlyShrinksDecide(passages, s, limits, deadline, run, respond, ended.value);
        }
        return ended.value, run;
      }
    }
    var tiled := CheckTiling(run.sent, |passages|);
    outcome := if tiled then Stitched else NothingToStitch;
  }

  /** Under `NeverLengthens` a window retried after a failure is a strictly shorter one. */
  lemma RetryIsShorter(passages: seq<SizedPassage>, s: Settings, limits: Limits, calls: seq<Call>, i: nat)
    requires ValidSettings(s) && NeverLengthens(s) && GoodCalls(passages, s, limits, calls)
    requires i + 1 < |calls| && calls[i].answer == TooLarge
    ensures calls[i + 1].start == calls[i].start && calls[i + 1].end < calls[i].end
  {
    var before, after := calls[i], calls[i + 1];
    assert GoodCall(passages, s, limits, before) && GoodCall(passages, s, limits, after);
    assert Follows(passages, s, before, after);
    var h :| before.halvings < h <= after.halvings && Planned(passages, before.start, Shrunk(s, h)) != before.end;
    ShrunkPlansShorten(passages, before.start, s, before.halvings, h);
    ShrunkPlansShorten(passages, before.start, s, h, after.halvings);
  }

  // ---------------------------------------------------------------- what a stitched run proves

  lemma {:induction false} PassageCharsWithin(passages: seq<SizedPassage>, lo: nat, p: nat, hi: nat)
    requires lo <= p < hi <= |passages|
    ensures PassageChars(passages, p, p + 1) <= PassageChars(passages, lo, hi)
    decreases hi - lo
  {
    if p + 1 < hi {
      PassageCharsWithin(passages, lo, p, hi - 1);
    } else {
      assert PassageChars(passages, p, p) == 0;
    }
  }

  lemma QuotientIsMonotone(a: real, b: real, c: real)
    requires a <= b && c >= 1.0
    ensures a / c <= b / c
  {
    assert (b - a) / c >= 0.0;
  }

  /** A passage inside a window that may be sent may also be sent on its own. */
  lemma PartIsSendable(passages: seq<SizedPassage>, lo: nat, p: nat, hi: nat, limits: Limits, s: Settings)
    requires ValidSettings(s) && lo <= p < hi <= |passages| && Sendable(passages, lo, hi, limits, s)
    ensures Sendable(passages, p, p + 1, limits, s)
  {
    PassageCharsWithin(passages, lo, p, hi);
    var part := limits.fixedPromptChars + PassageChars(passages, p, p + 1);
    var whole := limits.fixedPromptChars + PassageChars(passages, lo, hi);
    QuotientIsMonotone(part as real, whole as real, s.charsPerToken);
    CeilIsMonotone(part as real / s.charsPerToken, whole as real / s.charsPerToken);
    CharsWithin(passages, lo, p, p + 1, hi);
    EstimateIsMonotone(Chars(passages, p, p + 1), 1, Chars(passages, lo, hi), hi - lo, s);
  }

  lemma {:induction false} EachPassageWasAnswered(calls: seq<Call>, end: nat, p: nat) returns (call: Call)
    requires Tiles(Answered(calls), end) && p < end
    ensures call in calls && call.answer == Directed && call.start <= p < call.end
  {
    var last := calls[|calls| - 1];
    var shorter := calls[..|calls| - 1];
    if last.answer == Directed {
      var answered := Answered(calls);
      assert answered[..|answered| - 1] == Answered(shorter);
      if last.start <= p { return last; }
      call := EachPassageWasAnswered(shorter, last.start, p);
    } else {
      call := EachPassageWasAnswered(shorter, end, p);
    }
  }

  /** A chapter with a passage over a budget of its own is never stitched, whatever the model answers. */
  lemma StitchedMeansEachPassageFits(passages: seq<SizedPassage>, s: Settings, limits: Limits,
                                     deadline: nat, run: Run, respond: nat -> nat -> Attempt, p: nat)
    requires ValidSettings(s) && GoodRun(passages, s, limits, deadline, run, respond)
    requires Tiles(run.sent, |passages|) && p < |passages|
    ensures !CannotBeSent(passages, p, limits, s)
  {
    var call := EachPassageWasAnswered(run.calls, |passages|, p);
    assert GoodCall(passages, s, limits, call);
    PartIsSendable(passages, call.start, p, call.end, limits, s);
  }
}
