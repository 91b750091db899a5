/**
 * Rendering a reviewed script across failures, process deaths and resumes
 * (packages/application/src/render-audiobook.ts).
 */
module RenderRuns {
  import opened Wrappers
  import opened Text
  import opened AudiobookJob

  /** A segment under its render input identity: the key of its audio artifact. */
  datatype Item = Item(segmentId: string, identity: nat)

  /** A planned segment and whether verified audio for it was found when planning. */
  datatype Planned = Planned(item: Item, reusable: bool)

  datatype Fate = Works | Faults | Dies

  datatype Ending = Succeeded | Threw | Died

  function EndingOf(f: Fate): Ending {
    match f
    case Works => Succeeded
    case Faults => Threw
    case Dies => Died
  }

  /** One render command; `exposable` is what the output authority says of a completed job. */
  datatype Command = Command(chapters: seq<(string, seq<Item>)>, exposable: bool, recover: bool, aborted: bool,
                             outputFits: bool, revision: nat, problem: string)

  datatype PlannedChapter = PlannedChapter(chapterId: string, items: seq<Planned>)

  function Missing(items: seq<Planned>): nat {
    if items == [] then 0 else (if items[0].reusable then 0 else 1) + Missing(items[1..])
  }

  /** How many planned items have no durable artifact. */
  function NotDurable(plan: seq<Item>, artifacts: set<Item>): nat {
    if plan == [] then 0 else (if plan[0] in artifacts then 0 else 1) + NotDurable(plan[1..], artifacts)
  }

  function ItemsOf(items: seq<Planned>): seq<Item> {
    seq(|items|, i requires 0 <= i < |items| => items[i].item)
  }

  function Flatten(chapters: seq<PlannedChapter>): seq<Planned> {
    if chapters == [] then [] else chapters[0].items + Flatten(chapters[1..])
  }

  ghost predicate DistinctSegments(items: seq<Planned>) {
    forall i, j | 0 <= i < j < |items| :: items[i].item.segmentId != items[j].item.segmentId
  }

  lemma {:induction false} OneMoreDurable(plan: seq<Item>, artifacts: set<Item>, item: Item)
    requires item in plan && item !in artifacts
    ensures NotDurable(plan, artifacts + {item}) < NotDurable(plan, artifacts)
  {
    DurableGrows(plan[1..], artifacts, artifacts + {item});
    if plan[0] != item {
      OneMoreDurable(plan[1..], artifacts, item);
    }
  }

  lemma {:induction false} DurableGrows(plan: seq<Item>, artifacts: set<Item>, more: set<Item>)
    requires artifacts <= more
    ensures NotDurable(plan, more) <= NotDurable(plan, artifacts)
  {
    if plan != [] {
      DurableGrows(plan[1..], artifacts, more);
    }
  }

  lemma {:induction false} PlanCounts(items: seq<Planned>, artifacts: set<Item>)
    requires forall i | 0 <= i < |items| :: items[i].reusable <==> items[i].item in artifacts
    ensures NotDurable(ItemsOf(items), artifacts) == Missing(items) <= |items|
  {
    if items != [] {
      assert ItemsOf(items)[1..] == ItemsOf(items[1..]);
      PlanCounts(items[1..], artifacts);
    }
  }

  /** The job's count never claims more than the durable artifacts of the plan. */
  predicate HonestCount(s: Snapshot, plan: seq<Item>, artifacts: set<Item>) {
    s.progress.totalSegments == |plan| && s.progress.completedSegments + NotDurable(plan, artifacts) <= |plan|
  }

  /** A job that carries counts, in any state, is honest about them; before rendering it carries none. */
  predicate Honest(s: Snapshot, plan: seq<Item>, artifacts: set<Item>) {
    if s.stage in {Rendering, Assembling, Done} then HonestCount(s, plan, artifacts) else NoSegments(s.progress)
  }

  /** Honest about one of these plans: of the command that saved it. */
  ghost predicate Truthful(s: Snapshot, plans: seq<seq<Item>>, artifacts: set<Item>) {
    exists n | 0 <= n < |plans| :: Honest(s, plans[n], artifacts)
  }

  lemma HonestIsTruthful(s: Snapshot, plan: seq<Item>, plans: seq<seq<Item>>, artifacts: set<Item>)
    requires plan in plans && Honest(s, plan, artifacts)
    ensures Truthful(s, plans, artifacts)
  {
  }

  /** Artifacts and plans only make room for more. */
  lemma TruthGrows(s: Snapshot, plans: seq<seq<Item>>, morePlans: seq<seq<Item>>, artifacts: set<Item>, more: set<Item>)
    requires Truthful(s, plans, artifacts) && artifacts <= more && plans <= morePlans
    ensures Truthful(s, morePlans, more)
  {
    var n :| 0 <= n < |plans| && Honest(s, plans[n], artifacts);
    DurableGrows(plans[n], artifacts, more);
    assert morePlans[n] == plans[n];
  }

  /** Only the segment counts and the presence of a stage that carries them matter. */
  predicate SameCounts(s: Snapshot, t: Snapshot) {
    && (s.stage in {Rendering, Assembling, Done} <==> t.stage in {Rendering, Assembling, Done})
    && s.progress.completedSegments == t.progress.completedSegments && s.progress.totalSegments == t.progress.totalSegments
  }

  lemma CountsDecide(s: Snapshot, t: Snapshot, plans: seq<seq<Item>>, artifacts: set<Item>)
    requires Truthful(s, plans, artifacts) && SameCounts(s, t)
    ensures Truthful(t, plans, artifacts)
  {
    var n :| 0 <= n < |plans| && Honest(s, plans[n], artifacts);
    assert Honest(t, plans[n], artifacts);
  }

  /** Rendering with `rest` still to do: the flags are right and exactly the missing items are uncounted. */
  ghost predicate OnTrack(s: Snapshot, plan: seq<Item>, artifacts: set<Item>, rest: seq<Planned>) {
    && s.state == Running && s.stage == Rendering && s.bookId.Some?
    && s.progress.totalSegments == |plan| && s.progress.completedSegments + Missing(rest) == |plan|
    && NotDurable(plan, artifacts) <= Missing(rest)
    && DistinctSegments(rest) && FlagsAreRight(rest, plan, artifacts)
  }

  ghost predicate FlagsAreRight(rest: seq<Planned>, plan: seq<Item>, artifacts: set<Item>) {
    forall i | 0 <= i < |rest| ::
      && (rest[i].reusable <==> rest[i].item in artifacts) && rest[i].item in plan
      && !Blank(rest[i].item.segmentId)
  }

  /** A completely directed script, before rendering. */
  predicate ReadyToRender(s: Snapshot) {
    s.stage == Directing && DirectionComplete(s.progress.direction)
  }

  class RenderWorkspace {
    const fate: nat -> Fate
    var writes: nat
    var artifacts: set<Item>
    var storedJob: Snapshot
    /** Every item handed to the speech engine, in order. */
    var rendered: seq<Item>
    /** What is shown of every saved job; any property its calls keep. */
    ghost const accepts: Snapshot -> bool
    /** The plans of this command and of those before it. */
    ghost const plans: seq<seq<Item>>

    constructor (fate: nat -> Fate, job: Snapshot, artifacts: set<Item>, ghost accepts: Snapshot -> bool,
                 ghost plans: seq<seq<Item>>)
      ensures this.fate == fate && this.artifacts == artifacts && storedJob == job && rendered == []
      ensures this.accepts == accepts && this.plans == plans && writes == 0
    {
      this.fate, this.accepts, this.plans := fate, accepts, plans;
      writes, this.artifacts, storedJob, rendered := 0, artifacts, job, [];
    }

    /** The stored snapshot and the job in memory are accepted. */
    ghost predicate Readable(job: AudiobookJob)
      reads this`storedJob, job
    {
      Closed(accepts) && accepts(storedJob) && accepts(job.TakeSnapshot())
    }

    /** Both are also honest about their counts. */
    ghost predicate Steady(job: AudiobookJob)
      reads this`storedJob, this`artifacts, job
    {
      Readable(job) && Truthful(storedJob, plans, artifacts) && Truthful(job.TakeSnapshot(), plans, artifacts)
    }

    /** No operation faults and the process lives. */
    ghost predicate Faultless() {
      forall n: nat :: fate(n) == Works
    }

    method Operate() returns (end: Ending)
      modifies this`writes
      ensures end == EndingOf(fate(old(writes))) && (Faultless() ==> end == Succeeded) && writes == old(writes) + 1
    {
      end := EndingOf(fate(writes));
      writes := writes + 1;
    }

    method SaveJob(job: AudiobookJob) returns (end: Ending)
      requires Steady(job)
      modifies this`writes, this`storedJob
      ensures Steady(job) && end == EndingOf(fate(old(writes))) && (Faultless() ==> end == Succeeded)
      ensures writes == old(writes) + 1
      ensures storedJob == if end == Succeeded then job.TakeSnapshot() else old(storedJob)
    {
      end := Operate();
      if end == Succeeded {
        storedJob := job.TakeSnapshot();
      }
    }

    method Count(job: AudiobookJob, segmentId: string) returns (ok: bool)
      requires Readable(job)
      modifies job
      ensures Readable(job)
      ensures ok <==> SegmentCompleted(old(job.TakeSnapshot()), segmentId).Some?
      ensures ok ==> Some(job.TakeSnapshot()) == SegmentCompleted(old(job.TakeSnapshot()), segmentId)
      ensures !ok ==> job.TakeSnapshot() == old(job.TakeSnapshot())
    {
      ghost var before := job.TakeSnapshot();
      ok := job.RecordSegmentCompleted(segmentId);
      MadeKeeps(accepts, before, Call.RecordSegmentCompleted(segmentId), ok, job.TakeSnapshot());
    }

    /** Renders one missing segment: its audio is durable before the job counts it. */
    method RenderItem(job: AudiobookJob, p: Planned, ghost plan: seq<Item>, ghost rest: seq<Planned>) returns (end: Ending)
      requires OnTrack(job.TakeSnapshot(), plan, artifacts, [p] + rest) && !p.reusable
      requires Steady(job) && plan in plans
      modifies job, this`writes, this`artifacts, this`storedJob, this`rendered
      ensures Steady(job) && (Faultless() ==> end == Succeeded)
      ensures end == Succeeded ==> OnTrack(job.TakeSnapshot(), plan, artifacts, rest) && p.item in artifacts
      ensures end == Succeeded ==> storedJob == job.TakeSnapshot()
      ensures storedJob == old(storedJob) || HonestCount(storedJob, plan, artifacts)
      ensures HonestCount(job.TakeSnapshot(), plan, artifacts)
      ensures job.state == Running && job.stage == Rendering
      ensures old(artifacts) <= artifacts <= old(artifacts) + {p.item}
      ensures rendered == old(rendered) + [p.item] && p.item !in old(artifacts)
    {
      assert ([p] + rest)[0] == p && ([p] + rest)[1..] == rest;
      rendered := rendered + [p.item];
      end := Operate();
      if end != Succeeded { return; }
      end := Operate();
      if end != Succeeded { return; }
      OneMoreDurable(plan, artifacts, p.item);
      ghost var before := artifacts;
      artifacts := artifacts + {p.item};
      var counted := Count(job, p.item.segmentId);
      assert counted;
      RestStaysRight(p, rest, plan, before);
      TruthGrows(storedJob, plans, plans, before, artifacts);
      HonestIsTruthful(job.TakeSnapshot(), plan, plans, artifacts);
      end := SaveJob(job);
    }

    /** The stored job is the one found, or counts only what is durable of this plan. */
    ghost predicate StoredIsHonest(found: Snapshot, plan: seq<Item>)
      reads this`storedJob, this`artifacts
    {
      storedJob == found || HonestCount(storedJob, plan, artifacts)
    }

    /** One chapter: reusable audio is taken as it is, the rest is rendered. */
    method RenderItems(job: AudiobookJob, items: seq<Planned>, ghost plan: seq<Item>, ghost later: seq<Planned>)
      returns (end: Ending, generated: nat, reused: nat)
      requires OnTrack(job.TakeSnapshot(), plan, artifacts, items + later)
      requires Steady(job) && plan in plans
      modifies job, this`writes, this`artifacts, this`storedJob, this`rendered
      ensures Steady(job) && (Faultless() ==> end == Succeeded)
      ensures end == Succeeded ==> OnTrack(job.TakeSnapshot(), plan, artifacts, later) && generated + reused == |items|
      ensures StoredIsHonest(old(storedJob), plan)
      ensures HonestCount(job.TakeSnapshot(), plan, artifacts) && job.state == Running && job.stage == Rendering
      ensures old(artifacts) <= artifacts && Logged(old(rendered), rendered, old(artifacts))
      ensures end == Succeeded ==> LogIsDurable(old(rendered), rendered, artifacts)
    {
      generated, reused := 0, 0;
      for i := 0 to |items|
        invariant OnTrack(job.TakeSnapshot(), plan, artifacts, items[i..] + later) && Steady(job)
        invariant generated + reused == i && old(artifacts) <= artifacts && StoredIsHonest(old(storedJob), plan)
        invariant Logged(old(rendered), rendered, old(artifacts)) && LogIsDurable(old(rendered), rendered, artifacts)
      {
        assert items[i..] + later == [items[i]] + (items[i + 1..] + later);
        if items[i].reusable {
          SkipReusable(job.TakeSnapshot(), plan, artifacts, items[i], items[i + 1..] + later);
          reused := reused + 1;
        } else {
          ghost var log, held := rendered, artifacts;
          end := RenderItem(job, items[i], plan, items[i + 1..] + later);
          LogGrows(old(rendered), log, items[i].item, old(artifacts), held);
          DurableGrows(plan, held, artifacts);
          if end != Succeeded { return; }
          assert LogIsDurable(old(rendered), rendered, artifacts);
          generated := generated + 1;
        }
      }
      assert items[|items|..] + later == later;
      return Succeeded, generated, reused;
    }

    /** Announces the chapter, saves the job and renders the chapter's items. */
    method RenderChapter(job: AudiobookJob, chapter: PlannedChapter, ghost plan: seq<Item>, ghost later: seq<Planned>)
      returns (end: Ending, generated: nat, reused: nat)
      requires OnTrack(job.TakeSnapshot(), plan, artifacts, chapter.items + later) && !Blank(chapter.chapterId)
      requires Steady(job) && plan in plans
      modifies job, this`writes, this`artifacts, this`storedJob, this`rendered
      ensures Steady(job) && (Faultless() ==> end == Succeeded)
      ensures end == Succeeded ==> OnTrack(job.TakeSnapshot(), plan, artifacts, later) && generated + reused == |chapter.items|
      ensures StoredIsHonest(old(storedJob), plan)
      ensures HonestCount(job.TakeSnapshot(), plan, artifacts) && job.state == Running && job.stage == Rendering
      ensures old(artifacts) <= artifacts && Logged(old(rendered), rendered, old(artifacts))
      ensures end == Succeeded ==> LogIsDurable(old(rendered), rendered, artifacts)
    {
      generated, reused := 0, 0;
      var reported := Announce(job, chapter.chapterId);
      assert OnTrack(job.TakeSnapshot(), plan, artifacts, chapter.items + later);
      end := SaveJob(job);
      if end == Succeeded {
        assert HonestCount(storedJob, plan, artifacts);
        ghost var held := artifacts;
        end, generated, reused := RenderItems(job, chapter.items, plan, later);
        DurableGrows(plan, held, artifacts);
      }
    }

    /** The whole batch. A batch that returns has used or rendered every planned segment. */
    method Render(job: AudiobookJob, chapters: seq<PlannedChapter>, ghost plan: seq<Item>)
      returns (end: Ending, generated: nat, reused: nat)
      requires OnTrack(job.TakeSnapshot(), plan, artifacts, Flatten(chapters)) && |plan| == |Flatten(chapters)|
      requires forall c | 0 <= c < |chapters| :: !Blank(chapters[c].chapterId)
      requires Steady(job) && plan in plans
      modifies job, this`writes, this`artifacts, this`storedJob, this`rendered
      ensures Steady(job) && (Faultless() ==> end == Succeeded)
      ensures end == Succeeded ==> generated + reused == |plan| && OnTrack(job.TakeSnapshot(), plan, artifacts, [])
      ensures StoredIsHonest(old(storedJob), plan)
      ensures HonestCount(job.TakeSnapshot(), plan, artifacts) && job.state == Running && job.stage == Rendering
      ensures old(artifacts) <= artifacts && Logged(old(rendered), rendered, old(artifacts))
    {
      generated, reused := 0, 0;
      for c := 0 to |chapters|
        invariant OnTrack(job.TakeSnapshot(), plan, artifacts, Flatten(chapters[c..])) && Steady(job)
        invariant generated + reused + |Flatten(chapters[c..])| == |plan|
        invariant old(artifacts) <= artifacts && StoredIsHonest(old(storedJob), plan)
        invariant Logged(old(rendered), rendered, old(artifacts)) && LogIsDurable(old(rendered), rendered, artifacts)
      {
        assert chapters[c..][1..] == chapters[c + 1..];
        ghost var log, held := rendered, artifacts;
        var made, used;
        end, made, used := RenderChapter(job, chapters[c], plan, Flatten(chapters[c + 1..]));
        LogsJoin(old(rendered), log, rendered, old(artifacts), held);
        DurableGrows(plan, held, artifacts);
        if end != Succeeded { return; }
        LogsStayDurable(old(rendered), log, rendered, held, artifacts);
        generated, reused := generated + made, reused + used;
      }
      return Succeeded, generated, reused;
    }

    /** Looks up the verified audio of every segment under the identity the claimed approvals give it. */
    method PlanRendering(chapters: seq<(string, seq<Item>)>) returns (planned: seq<PlannedChapter>)
      ensures |planned| == |chapters|
      ensures forall c | 0 <= c < |chapters| :: planned[c] == PlannedChapter(chapters[c].0, PlanOf(chapters[c].1, artifacts))
    {
      planned := [];
      for c := 0 to |chapters|
        invariant |planned| == c
        invariant forall k | 0 <= k < c :: planned[k] == PlannedChapter(chapters[k].0, PlanOf(chapters[k].1, artifacts))
      {
        var items := [];
        for i := 0 to |chapters[c].1|
          invariant items == PlanOf(chapters[c].1[..i], artifacts)
        {
          var item := chapters[c].1[i];
          assert chapters[c].1[..i + 1] == chapters[c].1[..i] + [item];
          items := items + [Planned(item, item in artifacts)];
        }
        assert chapters[c].1[..|chapters[c].1|] == chapters[c].1;
        planned := planned + [PlannedChapter(chapters[c].0, items)];
      }
    }

    method CountReusable(planned: seq<PlannedChapter>) returns (total: nat, reusable: nat)
      ensures total == |Flatten(planned)| && reusable + Missing(Flatten(planned)) == total
    {
      total, reusable := 0, 0;
      for c := 0 to |planned|
        invariant total + |Flatten(planned[c..])| == |Flatten(planned)|
        invariant reusable + |Flatten(planned[c..])| + Missing(Flatten(planned)) == |Flatten(planned)| + Missing(Flatten(planned[c..]))
      {
        assert planned[c..][1..] == planned[c + 1..];
        var items := planned[c].items;
        MissingAppend(items, Flatten(planned[c + 1..]));
        for i := 0 to |items|
          invariant total + |items| - i + |Flatten(planned[c + 1..])| == |Flatten(planned)|
          invariant reusable + |items| - i + |Flatten(planned[c + 1..])| + Missing(Flatten(planned))
                 == |Flatten(planned)| + Missing(items[i..]) + Missing(Flatten(planned[c + 1..]))
        {
          assert items[i..][1..] == items[i + 1..];
          total := total + 1;
          if items[i].reusable { reusable := reusable + 1; }
        }
      }
    }

    /** A planning that fails after an approval leaves a failed render of the whole script behind. */
    method BreakPlanning(job: AudiobookJob, ghost plan: seq<Item>, total: nat, problem: string)
      returns (end: Ending, ghost closing: Option<nat>)
      requires job.state == AwaitingReview && job.bookId.Some? && ReadyToRender(job.TakeSnapshot())
      requires 1 <= total == |plan| && Safe(total) && NotDurable(plan, artifacts) <= total
      requires Steady(job) && plan in plans
      modifies job, this`writes, this`storedJob
      ensures Steady(job) && end != Succeeded && job.stage == Rendering
      ensures HonestCount(job.TakeSnapshot(), plan, artifacts)
      ensures closing.Some? ==> FailedWith(job.TakeSnapshot(), problem) && Settles(job, end, closing.value)
      ensures closing.None? && end == Threw && !Blank(problem) ==> storedJob == old(storedJob)
    {
      closing := None;
      StartApproved(job);
      StartRendering(job, total, 0);
      HonestIsTruthful(job.TakeSnapshot(), plan, plans, artifacts);
      end := SaveJob(job);
      if end == Succeeded {
        end, closing := Break(job, problem);
      }
    }

    /** Takes the rendering stage over at the verified count, and saves that. */
    method StartPass(job: AudiobookJob, total: nat, reusable: nat, ghost plan: seq<Item>) returns (end: Ending)
      requires job.state == AwaitingReview || (job.state in {Failed, Abandoned} && job.stage == Rendering)
      requires job.bookId.Some? && (job.state == AwaitingReview ==> ReadyToRender(job.TakeSnapshot()))
      requires 1 <= total == |plan| && Safe(total) && reusable + NotDurable(plan, artifacts) == total
      requires Steady(job) && plan in plans
      modifies job, this`writes, this`storedJob
      ensures Steady(job) && (Faultless() ==> end == Succeeded)
      ensures job.state == Running && job.stage == Rendering && job.bookId == old(job.bookId)
      ensures job.progress.totalSegments == total && job.progress.completedSegments == reusable
      ensures end != Succeeded ==> storedJob == old(storedJob)
    {
      TakeOver(job, total, reusable);
      HonestIsTruthful(job.TakeSnapshot(), plan, plans, artifacts);
      end := SaveJob(job);
    }

    /**
     * Plans and renders after an approval or an interruption. The job's count is rebased to the
     * verified artifacts, and a render that returns is always accepted for assembly.
     */
    method RenderPass(job: AudiobookJob, command: Command, ghost plan: seq<Planned>)
      returns (end: Ending, ghost closing: Option<nat>)
      requires ProperScript(command.chapters, plan, artifacts) && ItemsOf(plan) in plans
      requires job.state == AwaitingReview || (job.state in {Failed, Abandoned} && job.stage == Rendering)
      requires job.bookId.Some? && (job.state == AwaitingReview ==> ReadyToRender(job.TakeSnapshot()))
      requires Steady(job)
      modifies job, this`writes, this`artifacts, this`storedJob, this`rendered
      ensures Steady(job) && (Faultless() ==> end == Succeeded)
      ensures old(artifacts) <= artifacts && Logged(old(rendered), rendered, old(artifacts))
      ensures end == Succeeded ==> MayPublish(job) && storedJob == job.TakeSnapshot()
      ensures job.state == Running ==> HonestCount(job.TakeSnapshot(), ItemsOf(plan), artifacts)
      ensures job.stage == Assembling ==> NotDurable(ItemsOf(plan), artifacts) == 0
      ensures closing.Some? ==> Settles(job, end, closing.value)
      ensures closing.Some? ==> Recorded(job.TakeSnapshot(), command)
                                || (fate(old(writes)) == Faults && FailedWith(job.TakeSnapshot(), command.problem))
      ensures closing.None? && end == Threw && !Blank(command.problem) ==> storedJob == old(storedJob)
    {
      closing := None;
      var planned := PlanRendering(command.chapters);
      PlanIsFlat(command.chapters, planned, artifacts);
      assert Flatten(planned) == plan;
      var total, reusable := CountReusable(planned);
      PlanCounts(plan, artifacts);
      PlannedFlagsAreRight(plan, artifacts);
      end, closing := RunPlanned(job, planned, plan, total, reusable, command);
    }

    /** Reads the durable recordings and the gate, takes the stage over, and renders. */
    method RunPlanned(job: AudiobookJob, planned: seq<PlannedChapter>, ghost plan: seq<Planned>, total: nat, reusable: nat,
                      command: Command) returns (end: Ending, ghost closing: Option<nat>)
      requires plan == Flatten(planned) && 1 <= total == |plan| && Safe(total) && ItemsOf(plan) in plans
      requires FlagsAreRight(plan, ItemsOf(plan), artifacts) && DistinctSegments(plan)
      requires reusable + Missing(plan) == total && NotDurable(ItemsOf(plan), artifacts) == Missing(plan)
      requires forall c | 0 <= c < |planned| :: !Blank(planned[c].chapterId)
      requires job.state == AwaitingReview || (job.state in {Failed, Abandoned} && job.stage == Rendering)
      requires job.bookId.Some? && (job.state == AwaitingReview ==> ReadyToRender(job.TakeSnapshot()))
      requires Steady(job)
      modifies job, this`writes, this`artifacts, this`storedJob, this`rendered
      ensures Steady(job) && (Faultless() ==> end == Succeeded)
      ensures old(artifacts) <= artifacts && Logged(old(rendered), rendered, old(artifacts))
      ensures end == Succeeded ==> MayPublish(job) && storedJob == job.TakeSnapshot()
      ensures job.state == Running ==> HonestCount(job.TakeSnapshot(), ItemsOf(plan), artifacts)
      ensures job.stage == Assembling ==> NotDurable(ItemsOf(plan), artifacts) == 0
      ensures closing.Some? ==> Settles(job, end, closing.value)
      ensures closing.Some? ==> Recorded(job.TakeSnapshot(), command)
                                || (fate(old(writes)) == Faults && FailedWith(job.TakeSnapshot(), command.problem))
      ensures closing.None? && end == Threw && !Blank(command.problem) ==> storedJob == old(storedJob)
    {
      closing := None;
      end := Operate();
      if end == Threw && job.state == AwaitingReview {
        end, closing := BreakPlanning(job, ItemsOf(plan), total, command.problem);
        return;
      }
      if end != Succeeded { return; }
      end, closing := TakeAndRender(job, planned, plan, total, reusable, command);
    }

    /** Reads the gate again, takes the stage over, and renders. */
    method TakeAndRender(job: AudiobookJob, planned: seq<PlannedChapter>, ghost plan: seq<Planned>, total: nat, reusable: nat,
                         command: Command) returns (end: Ending, ghost closing: Option<nat>)
      requires plan == Flatten(planned) && 1 <= total == |plan| && Safe(total) && ItemsOf(plan) in plans
      requires FlagsAreRight(plan, ItemsOf(plan), artifacts) && DistinctSegments(plan)
      requires reusable + Missing(plan) == total && NotDurable(ItemsOf(plan), artifacts) == Missing(plan)
      requires forall c | 0 <= c < |planned| :: !Blank(planned[c].chapterId)
      requires job.state == AwaitingReview || (job.state in {Failed, Abandoned} && job.stage == Rendering)
      requires job.bookId.Some? && (job.state == AwaitingReview ==> ReadyToRender(job.TakeSnapshot()))
      requires Steady(job)
      modifies job, this`writes, this`artifacts, this`storedJob, this`rendered
      ensures Steady(job) && (Faultless() ==> end == Succeeded)
      ensures old(artifacts) <= artifacts && Logged(old(rendered), rendered, old(artifacts))
      ensures end == Succeeded ==> MayPublish(job) && storedJob == job.TakeSnapshot() && closing.None?
      ensures job.state == Running ==> HonestCount(job.TakeSnapshot(), ItemsOf(plan), artifacts)
      ensures job.stage == Assembling ==> NotDurable(ItemsOf(plan), artifacts) == 0
      ensures closing.Some? ==> Recorded(job.TakeSnapshot(), command) && Settles(job, end, closing.value)
      ensures closing.None? && end == Threw && !Blank(command.problem) ==> storedJob == old(storedJob)
    {
      closing := None;
      end := Operate();
      if end != Succeeded { return; }
      end := StartPass(job, total, reusable, ItemsOf(plan));
      if end != Succeeded { return; }
      end, closing := RenderOrGiveUp(job, planned, plan, command);
    }

    method RenderOrGiveUp(job: AudiobookJob, planned: seq<PlannedChapter>, ghost plan: seq<Planned>, command: Command)
      returns (end: Ending, ghost closing: Option<nat>)
      requires OnTrack(job.TakeSnapshot(), ItemsOf(plan), artifacts, plan) && plan == Flatten(planned) && plan != []
      requires forall c | 0 <= c < |planned| :: !Blank(planned[c].chapterId)
      requires Steady(job) && ItemsOf(plan) in plans
      modifies job, this`writes, this`artifacts, this`storedJob, this`rendered
      ensures Steady(job) && (Faultless() ==> end == Succeeded)
      ensures old(artifacts) <= artifacts && Logged(old(rendered), rendered, old(artifacts))
      ensures end == Succeeded ==> MayPublish(job) && storedJob == job.TakeSnapshot()
      ensures job.state == Running ==> HonestCount(job.TakeSnapshot(), ItemsOf(plan), artifacts)
      ensures job.stage == Assembling ==> NotDurable(ItemsOf(plan), artifacts) == 0
      ensures job.stage in {Rendering, Assembling}
      ensures closing.Some? ==> Recorded(job.TakeSnapshot(), command) && Settles(job, end, closing.value)
      ensures closing.None? && !Blank(command.problem) ==> end != Threw
    {
      closing := None;
      end := RenderPlanned(job, planned, plan);
      if end == Threw {
        end, closing := GiveUp(job, command);
      }
    }

    /** Renders the planned book and enters the assembly. */
    method RenderPlanned(job: AudiobookJob, planned: seq<PlannedChapter>, ghost plan: seq<Planned>) returns (end: Ending)
      requires OnTrack(job.TakeSnapshot(), ItemsOf(plan), artifacts, plan) && plan == Flatten(planned) && plan != []
      requires forall c | 0 <= c < |planned| :: !Blank(planned[c].chapterId)
      requires Steady(job) && ItemsOf(plan) in plans
      modifies job, this`writes, this`artifacts, this`storedJob, this`rendered
      ensures Steady(job) && (Faultless() ==> end == Succeeded)
      ensures old(artifacts) <= artifacts && Logged(old(rendered), rendered, old(artifacts))
      ensures end == Succeeded ==> MayPublish(job) && storedJob == job.TakeSnapshot()
      ensures job.state == Running && HonestCount(job.TakeSnapshot(), ItemsOf(plan), artifacts)
      ensures job.stage in {Rendering, Assembling}
      ensures job.stage == Assembling ==> NotDurable(ItemsOf(plan), artifacts) == 0
    {
      var generated, reused;
      end, generated, reused := Render(job, planned, ItemsOf(plan));
      if end == Succeeded {
        end := EnterAssembly(job, ItemsOf(plan));
      }
    }

    /** Starts or resumes the rendering stage at the verified count. */
    method TakeOver(job: AudiobookJob, total: nat, reusable: nat)
      requires job.state == AwaitingReview || (job.state in {Failed, Abandoned} && job.stage == Rendering)
      requires job.bookId.Some? && (job.state == AwaitingReview ==> ReadyToRender(job.TakeSnapshot()))
      requires 1 <= total && Safe(total) && reusable <= total
      requires Readable(job)
      modifies job
      ensures Readable(job)
      ensures job.state == Running && job.stage == Rendering && job.bookId == old(job.bookId)
      ensures job.progress.totalSegments == total && job.progress.completedSegments == reusable
    {
      if job.state == AwaitingReview {
        StartApproved(job);
        StartRendering(job, total, reusable);
      } else {
        ghost var before := job.TakeSnapshot();
        var resumed := job.ResumeFailedStage(AtRendering(reusable, total));
        assert resumed;
        MadeKeeps(accepts, before, Call.ResumeFailedStage(AtRendering(reusable, total)), resumed, job.TakeSnapshot());
      }
    }

    method StartApproved(job: AudiobookJob)
      requires job.state == AwaitingReview && ReadyToRender(job.TakeSnapshot())
      requires Readable(job)
      modifies job
      ensures Readable(job)
      ensures job.state == Running && ReadyToRender(job.TakeSnapshot()) && job.bookId == old(job.bookId)
    {
      ghost var before := job.TakeSnapshot();
      var resumed := job.ResumeApprovedRender();
      assert resumed;
      MadeKeeps(accepts, before, Call.ResumeApprovedRender, resumed, job.TakeSnapshot());
    }

    method StartRendering(job: AudiobookJob, total: nat, reusable: nat)
      requires job.state == Running && ReadyToRender(job.TakeSnapshot()) && 1 <= total && Safe(total) && reusable <= total
      requires Readable(job)
      modifies job
      ensures Readable(job)
      ensures job.state == Running && job.stage == Rendering && job.bookId == old(job.bookId)
      ensures job.progress.totalSegments == total && job.progress.completedSegments == reusable
    {
      ghost var before := job.TakeSnapshot();
      var begun := job.BeginRendering(total, reusable);
      assert begun;
      MadeKeeps(accepts, before, Call.BeginRendering(total, reusable), begun, job.TakeSnapshot());
    }

    /** The catalog is checked once more before the assembly is entered. */
    method EnterAssembly(job: AudiobookJob, ghost plan: seq<Item>) returns (end: Ending)
      requires OnTrack(job.TakeSnapshot(), plan, artifacts, []) && plan != [] && Steady(job)
      modifies job, this`writes, this`storedJob
      ensures Steady(job) && (Faultless() ==> end == Succeeded)
      ensures end == Succeeded ==> MayPublish(job) && storedJob == job.TakeSnapshot()
      ensures HonestCount(job.TakeSnapshot(), plan, artifacts)
      ensures job.state == Running && job.stage in {Rendering, Assembling}
    {
      end := Operate();
      if end != Succeeded { return; }
      ghost var before := job.TakeSnapshot();
      var assembling := job.BeginAssembly();
      assert assembling;
      MadeKeeps(accepts, before, Call.BeginAssembly, assembling, job.TakeSnapshot());
      CountsDecide(before, job.TakeSnapshot(), plans, artifacts);
      end := SaveJob(job);
    }

    /** Resumes an interrupted assembly: only when every planned artifact is verified. */
    method AssemblyPass(job: AudiobookJob, chapters: seq<(string, seq<Item>)>, ghost plan: seq<Planned>) returns (end: Ending)
      requires ProperScript(chapters, plan, artifacts) && ItemsOf(plan) in plans && Steady(job)
      requires job.state in {Failed, Abandoned} && job.stage == Assembling && job.bookId.Some?
      modifies job, this`writes, this`storedJob
      ensures Steady(job) && (Faultless() ==> (end == Succeeded <==> Missing(plan) == 0))
      ensures end == Succeeded ==> MayPublish(job) && Missing(plan) == 0
      ensures end != Succeeded ==> storedJob == old(storedJob)
    {
      var planned := PlanRendering(chapters);
      PlanIsFlat(chapters, planned, artifacts);
      var total, reusable := CountReusable(planned);
      PlanCounts(plan, artifacts);
      end := Operate();
      if end != Succeeded { return; }
      if reusable != total { return Threw; }
      ghost var before := job.TakeSnapshot();
      var resumed := job.ResumeFailedStage(AtAssembling(total, total));
      assert resumed;
      MadeKeeps(accepts, before, Call.ResumeFailedStage(AtAssembling(total, total)), resumed, job.TakeSnapshot());
      HonestIsTruthful(job.TakeSnapshot(), ItemsOf(plan), plans, artifacts);
      end := SaveJob(job);
    }

    predicate MayPublish(job: AudiobookJob)
      reads job
    {
      job.state == Running && job.stage == Assembling && job.bookId.Some? && job.progress.totalSegments >= 1
    }

    /** Assembles and publishes the output under the claimed revision, unless the catalog moved meanwhile. */
    method Publish(job: AudiobookJob, outputFits: bool, revision: nat) returns (end: Ending)
      requires Steady(job) && Safe(revision)
      requires MayPublish(job)
      modifies job, this`writes, this`storedJob
      ensures Steady(job) && (Faultless() && outputFits ==> end == Succeeded)
      ensures end == Succeeded ==> outputFits && storedJob.state == Completed && storedJob.catalogRevision == Some(revision)
      ensures end == Threw ==> (job.state == Running && job.stage == Assembling) || LostOutput(job)
      ensures fate(old(writes)) == Works && outputFits ==>
        end == EndingOf(fate(old(writes) + 1)) && job.state == Completed && (end != Succeeded ==> storedJob == old(storedJob))
    {
      end := Operate();
      if end != Succeeded { return; }
      ghost var before := job.TakeSnapshot();
      var completed := job.Complete(outputFits, revision);
      MadeKeeps(accepts, before, Call.Complete(outputFits, revision), completed, job.TakeSnapshot());
      CountsDecide(before, job.TakeSnapshot(), plans, artifacts);
      if !completed { return Threw; }
      end := SaveJob(job);
    }

    /** A completed job whose output may not be exposed goes back to review. */
    method Reopen(job: AudiobookJob) returns (end: Ending)
      requires Steady(job) && job.state == Completed
      modifies job, this`writes, this`storedJob
      ensures Steady(job) && job.state == AwaitingReview && job.stage == Directing && (Faultless() ==> end == Succeeded)
      ensures job.bookId == old(job.bookId) && job.progress.direction == old(job.progress.direction)
      ensures writes == old(writes) + 1 && storedJob == if end == Succeeded then job.TakeSnapshot() else old(storedJob)
    {
      ghost var before := job.TakeSnapshot();
      var reopened := job.ReopenForReview();
      MadeKeeps(accepts, before, Call.ReopenForReview, reopened, job.TakeSnapshot());
      HonestBeforeRendering(before, job.TakeSnapshot());
      end := SaveJob(job);
    }

    /** A job back in review carries no counts at all. */
    lemma HonestBeforeRendering(before: Snapshot, after: Snapshot)
      requires Truthful(before, plans, artifacts) && after.stage == Directing && NoSegments(after.progress)
      ensures Truthful(after, plans, artifacts)
    {
      var n :| 0 <= n < |plans| && Honest(before, plans[n], artifacts);
      assert Honest(after, plans[n], artifacts);
    }

    method Abandon(job: AudiobookJob) returns (end: Ending)
      requires Steady(job) && job.state == Running
      modifies job, this`writes, this`storedJob
      ensures Steady(job) && job.state == Abandoned && job.stage == old(job.stage) && job.bookId == old(job.bookId)
      ensures Faultless() ==> end == Succeeded
      ensures end == EndingOf(fate(old(writes))) && writes == old(writes) + 1
      ensures storedJob == if end == Succeeded then job.TakeSnapshot() else old(storedJob)
    {
      ghost var before := job.TakeSnapshot();
      var abandoned := job.MarkAbandoned();
      MadeKeeps(accepts, before, Call.MarkAbandoned, abandoned, job.TakeSnapshot());
      CountsDecide(before, job.TakeSnapshot(), plans, artifacts);
      end := SaveJob(job);
    }

    /** Records a failure; one without a message cannot be recorded. `closing` is the write that saves it. */
    method Break(job: AudiobookJob, problem: string) returns (end: Ending, ghost closing: Option<nat>)
      requires Steady(job) && job.state == Running && job.stage in {Rendering, Assembling}
      modifies job, this`writes, this`storedJob
      ensures Steady(job) && end != Succeeded && job.stage == old(job.stage)
      ensures job.progress.completedSegments == old(job.progress.completedSegments)
      ensures job.progress.totalSegments == old(job.progress.totalSegments)
      ensures closing == if Blank(problem) then None else Some(old(writes))
      ensures closing.Some? ==> FailedWith(job.TakeSnapshot(), problem) && Settles(job, end, closing.value)
    {
      ghost var before := job.TakeSnapshot();
      var failed := job.Fail(problem, None);
      MadeKeeps(accepts, before, Call.Fail(problem, None), failed, job.TakeSnapshot());
      CountsDecide(before, job.TakeSnapshot(), plans, artifacts);
      end, closing := Threw, None;
      if failed {
        closing := Some(writes);
        end := SaveJob(job);
        if end == Succeeded { end := Threw; }
      }
    }

    /** The last write was to save this job; unless it failed, the job is stored, and the cause is thrown. */
    ghost predicate Settles(job: AudiobookJob, end: Ending, closing: nat)
      reads this`writes, this`storedJob, job
    {
      && closing + 1 == writes && end == (if fate(closing) == Dies then Died else Threw)
      && (fate(closing) == Works ==> storedJob == job.TakeSnapshot())
    }

    /** The book was rendered, and only the last save, of the completed job, failed. */
    ghost predicate LostOutput(job: AudiobookJob)
      reads this`writes, job
    {
      job.state == Completed && writes > 0 && fate(writes - 1) == Faults
    }

    /** A failed command has stored its failure, or its last write failed, or it changed no running job. */
    ghost predicate LeavesNoneRunning(job: AudiobookJob, found: Snapshot, end: Ending, closing: Option<nat>, command: Command)
      reads this`writes, this`storedJob, job
    {
      if closing.Some? then
        Settles(job, end, closing.value)
        && (Recorded(job.TakeSnapshot(), command) || FailedWith(job.TakeSnapshot(), command.problem))
      else
        end == Threw && !Blank(command.problem) && storedJob.state == Running ==> storedJob == found || LostOutput(job)
    }

    /** A stale completed job is reopened and an abandoned command is recovered, when that was asked for. */
    method Prepare(job: AudiobookJob, command: Command, ghost plan: seq<Planned>) returns (end: Ending)
      requires Steady(job) && MayRender(job.TakeSnapshot())
      modifies job, this`writes, this`storedJob
      ensures Steady(job)
      ensures end == Succeeded ==> MayRender(job.TakeSnapshot()) && job.state != Completed && job.state != Running
      ensures end == Succeeded && !IsExposed(old(job.TakeSnapshot()), command) ==>
                (Serves(old(job.TakeSnapshot()), command, plan) <==> Serves(job.TakeSnapshot(), command, plan))
      ensures end == Threw ==> job.state != Running || !Renders(old(job.TakeSnapshot()), command.recover)
      ensures Faultless() && Renders(old(job.TakeSnapshot()), command.recover) ==> end == Succeeded
      ensures end == Succeeded && job.state == Abandoned ==> command.recover
      ensures old(writes) <= writes <= old(writes) + 1
      ensures if end == Succeeded then storedJob == old(storedJob) || storedJob.state != Running else storedJob == old(storedJob)
    {
      if job.state == Running && !command.recover { return Threw; }
      end := Succeeded;
      if job.state == Completed {
        end := Reopen(job);
      } else if job.state == Running {
        end := Abandon(job);
      }
      if end == Succeeded && job.state == Abandoned && !command.recover { end := Threw; }
    }

    /**
     * One command. An exposable output is returned as it is; a stale completed, an approved or an
     * interrupted job is rendered; any other is refused, and so is a crashed one without consent.
     */
    method Execute(job: AudiobookJob, command: Command, ghost plan: seq<Planned>)
      returns (end: Ending, ghost closing: Option<nat>)
      requires ProperScript(command.chapters, plan, artifacts) && ItemsOf(plan) in plans && Safe(command.revision)
      requires Steady(job) && MayRender(job.TakeSnapshot())
      modifies job, this`writes, this`artifacts, this`storedJob, this`rendered
      ensures Steady(job)
      ensures old(artifacts) <= artifacts && Logged(old(rendered), rendered, old(artifacts))
      ensures IsExposed(old(job.TakeSnapshot()), command) ==> end == Succeeded && storedJob == old(storedJob) && rendered == old(rendered)
      ensures end == Succeeded && !IsExposed(old(job.TakeSnapshot()), command) ==>
        storedJob.state == Completed && storedJob.catalogRevision == Some(command.revision)
      ensures end == Succeeded ==> Serves(old(job.TakeSnapshot()), command, plan)
      ensures Faultless() && Serves(old(job.TakeSnapshot()), command, plan) ==> end == Succeeded
      ensures LeavesNoneRunning(job, old(storedJob), end, closing, command)
      ensures closing.Some? && command.aborted && job.state != Abandoned ==> fate(old(writes)) == Faults || fate(old(writes) + 1) == Faults
      ensures closing.Some? && job.stage == Assembling ==> NotDurable(ItemsOf(plan), artifacts) == 0
    {
      closing := None;
      if job.state == Completed && command.exposable { return Succeeded, None; }
      end := Prepare(job, command, plan);
      if end == Succeeded {
        end, closing := RenderOrAssemble(job, command, plan);
      }
    }

    /** The end of a failed command: an aborted one is abandoned, another one fails with its problem. */
    method GiveUp(job: AudiobookJob, command: Command) returns (end: Ending, ghost closing: Option<nat>)
      requires Steady(job) && job.state == Running && job.stage in {Rendering, Assembling}
      modifies job, this`writes, this`storedJob
      ensures Steady(job) && end != Succeeded && job.stage == old(job.stage)
      ensures job.state == Running ==>
        && job.progress.completedSegments == old(job.progress.completedSegments)
        && job.progress.totalSegments == old(job.progress.totalSegments)
      ensures closing == if command.aborted || !Blank(command.problem) then Some(old(writes)) else None
      ensures closing.Some? ==> Recorded(job.TakeSnapshot(), command) && Settles(job, end, closing.value)
    {
      if command.aborted {
        closing := Some(writes);
        end := Abandon(job);
        if end == Succeeded { end := Threw; }
      } else {
        end, closing := Break(job, command.problem);
      }
    }

    /** Rendering or assembling, whichever was approved or interrupted, and then publishing. */
    method RenderOrAssemble(job: AudiobookJob, command: Command, ghost plan: seq<Planned>)
      returns (end: Ending, ghost closing: Option<nat>)
      requires ProperScript(command.chapters, plan, artifacts) && ItemsOf(plan) in plans && Safe(command.revision)
      requires Steady(job) && MayRender(job.TakeSnapshot()) && job.state !in {Completed, Running}
      requires job.state == Abandoned ==> command.recover
      modifies job, this`writes, this`artifacts, this`storedJob, this`rendered
      ensures Steady(job)
      ensures old(artifacts) <= artifacts && Logged(old(rendered), rendered, old(artifacts))
      ensures end == Succeeded ==> storedJob.state == Completed && storedJob.catalogRevision == Some(command.revision)
      ensures end == Succeeded ==> Serves(old(job.TakeSnapshot()), command, plan)
      ensures Faultless() && Serves(old(job.TakeSnapshot()), command, plan) ==> end == Succeeded
      ensures LeavesNoneRunning(job, old(storedJob), end, closing, command)
      ensures closing.Some? && command.aborted && job.state != Abandoned ==> fate(old(writes)) == Faults
      ensures closing.Some? && job.stage == Assembling ==> NotDurable(ItemsOf(plan), artifacts) == 0
    {
      end, closing := EnterStage(job, command, plan);
      if end == Succeeded {
        end, closing := PublishOrGiveUp(job, command);
      }
    }

    /** The approved or interrupted stage, up to an assembled book. */
    method EnterStage(job: AudiobookJob, command: Command, ghost plan: seq<Planned>)
      returns (end: Ending, ghost closing: Option<nat>)
      requires ProperScript(command.chapters, plan, artifacts) && ItemsOf(plan) in plans
      requires Steady(job) && MayRender(job.TakeSnapshot()) && job.state !in {Completed, Running}
      modifies job, this`writes, this`artifacts, this`storedJob, this`rendered
      ensures Steady(job)
      ensures old(artifacts) <= artifacts && Logged(old(rendered), rendered, old(artifacts))
      ensures end == Succeeded ==> MayPublish(job) && closing.None? && NotDurable(ItemsOf(plan), artifacts) == 0
      ensures end == Succeeded ==> EntersWith(old(job.TakeSnapshot()), plan)
      ensures Faultless() && EntersWith(old(job.TakeSnapshot()), plan) ==> end == Succeeded
      ensures closing.Some? ==> Settles(job, end, closing.value) && (job.stage == Assembling ==> NotDurable(ItemsOf(plan), artifacts) == 0)
      ensures closing.Some? ==> Recorded(job.TakeSnapshot(), command)
                                || (fate(old(writes)) == Faults && FailedWith(job.TakeSnapshot(), command.problem))
      ensures closing.None? && end == Threw && !Blank(command.problem) ==> storedJob == old(storedJob)
    {
      closing := None;
      if job.state == AwaitingReview || (job.state in {Failed, Abandoned} && job.stage == Rendering) {
        end, closing := RenderPass(job, command, plan);
      } else if job.state in {Failed, Abandoned} && job.stage == Assembling {
        PlanCountsFor(command.chapters, plan, artifacts);
        end := AssemblyPass(job, command.chapters, plan);
      } else {
        end := Threw;
      }
    }

    method PublishOrGiveUp(job: AudiobookJob, command: Command) returns (end: Ending, ghost closing: Option<nat>)
      requires Steady(job) && Safe(command.revision) && MayPublish(job)
      modifies job, this`writes, this`storedJob
      ensures Steady(job) && (Faultless() && command.outputFits ==> end == Succeeded)
      ensures end == Succeeded ==>
        command.outputFits && storedJob.state == Completed && storedJob.catalogRevision == Some(command.revision)
      ensures closing.Some? ==> Recorded(job.TakeSnapshot(), command) && Settles(job, end, closing.value)
      ensures closing.None? && end == Threw && !Blank(command.problem) ==> LostOutput(job)
      ensures fate(old(writes)) == Works && command.outputFits ==>
        end == EndingOf(fate(old(writes) + 1)) && closing.None? && (end != Succeeded ==> storedJob == old(storedJob))
    {
      closing := None;
      end := Publish(job, command.outputFits, command.revision);
      if end == Threw && job.state == Running {
        end, closing := GiveUp(job, command);
      }
    }

    method Announce(job: AudiobookJob, chapterId: string) returns (ok: bool)
      requires job.state == Running && job.stage == Rendering && !Blank(chapterId)
      requires Steady(job)
      modifies job
      ensures Steady(job)
      ensures ok && job.state == Running && job.stage == Rendering
      ensures job.progress.totalSegments == old(job.progress.totalSegments)
      ensures job.progress.completedSegments == old(job.progress.completedSegments) && job.bookId == old(job.bookId)
    {
      ghost var before := job.TakeSnapshot();
      ok := job.Report(Some(chapterId), Words("Rendering"));
      MadeKeeps(accepts, before, Call.Report(Some(chapterId), Words("Rendering")), ok, job.TakeSnapshot());
      CountsDecide(before, job.TakeSnapshot(), plans, artifacts);
    }
  }

  predicate FailedWith(s: Snapshot, problem: string) {
    s.stage in {Rendering, Assembling} && s.state == Failed && s.error == Some(problem)
  }

  /** What a command leaves behind that throws: abandoned when it was aborted, else failed with its problem. */
  predicate Recorded(s: Snapshot, command: Command) {
    if command.aborted then s.stage in {Rendering, Assembling} && s.state == Abandoned else FailedWith(s, command.problem)
  }

  /** What every readable job that a render may start from carries. */
  predicate MayRender(s: Snapshot) {
    && (s.state in {AwaitingReview, Completed} || s.stage in {Rendering, Assembling} ==> s.bookId.Some?)
    && (s.state in {AwaitingReview, Completed} ==> DirectionComplete(s.progress.direction))
    && (s.state == AwaitingReview ==> s.stage == Directing) && (s.state == Completed ==> s.stage == Done)
  }

  lemma ReadableMayRender(s: Snapshot)
    requires Sound(s)
    ensures MayRender(s)
  {
  }

  /** The jobs a render can go through for: in review, or interrupted with consent if the process was lost. */
  predicate Renders(s: Snapshot, recover: bool) {
    s.state in {AwaitingReview, Completed}
    || (s.stage in {Rendering, Assembling} && (s.state == Failed || (s.state in {Running, Abandoned} && recover)))
  }

  /** The stage can be entered: an interrupted assembly needs every planned recording. */
  predicate EntersWith(s: Snapshot, plan: seq<Planned>) {
    s.state == AwaitingReview
    || (s.state in {Failed, Abandoned} && (s.stage == Rendering || (s.stage == Assembling && Missing(plan) == 0)))
  }

  predicate IsExposed(s: Snapshot, command: Command) {
    s.state == Completed && command.exposable
  }

  /** When a command without faults succeeds: an interrupted assembly needs every planned recording. */
  predicate Serves(s: Snapshot, command: Command, plan: seq<Planned>) {
    IsExposed(s, command)
    || (command.outputFits && Renders(s, command.recover) && (s.stage == Assembling ==> Missing(plan) == 0))
  }

  function PlanOf(items: seq<Item>, artifacts: set<Item>): seq<Planned> {
    seq(|items|, i requires 0 <= i < |items| => Planned(items[i], items[i] in artifacts))
  }

  function PlanOfAll(chapters: seq<(string, seq<Item>)>, artifacts: set<Item>): seq<Planned> {
    if chapters == [] then [] else PlanOf(chapters[0].1, artifacts) + PlanOfAll(chapters[1..], artifacts)
  }

  /** An approved script: named chapters, and segments that have unique names in the whole book. */
  ghost predicate ProperScript(chapters: seq<(string, seq<Item>)>, plan: seq<Planned>, artifacts: set<Item>) {
    && plan == PlanOfAll(chapters, artifacts) && 1 <= |plan| && Safe(|plan|) && DistinctSegments(plan)
    && (forall c | 0 <= c < |chapters| :: !Blank(chapters[c].0))
    && (forall i | 0 <= i < |plan| :: !Blank(plan[i].item.segmentId))
  }

  lemma {:induction false} PlanIsFlat(chapters: seq<(string, seq<Item>)>, planned: seq<PlannedChapter>, artifacts: set<Item>)
    requires |planned| == |chapters|
    requires forall c | 0 <= c < |chapters| :: planned[c] == PlannedChapter(chapters[c].0, PlanOf(chapters[c].1, artifacts))
    ensures Flatten(planned) == PlanOfAll(chapters, artifacts)
    ensures FlagsMatch(PlanOfAll(chapters, artifacts), artifacts)
  {
    if chapters != [] {
      PlanIsFlat(chapters[1..], planned[1..], artifacts);
    }
  }

  lemma PlanCountsFor(chapters: seq<(string, seq<Item>)>, plan: seq<Planned>, artifacts: set<Item>)
    requires ProperScript(chapters, plan, artifacts)
    ensures NotDurable(ItemsOf(plan), artifacts) == Missing(plan)
  {
    FlagsAreThere(chapters, artifacts);
    PlanCounts(plan, artifacts);
  }

  lemma {:induction false} FlagsAreThere(chapters: seq<(string, seq<Item>)>, artifacts: set<Item>)
    ensures FlagsMatch(PlanOfAll(chapters, artifacts), artifacts)
  {
    if chapters != [] {
      FlagsAreThere(chapters[1..], artifacts);
    }
  }

  lemma PlannedFlagsAreRight(plan: seq<Planned>, artifacts: set<Item>)
    requires FlagsMatch(plan, artifacts) && forall i | 0 <= i < |plan| :: !Blank(plan[i].item.segmentId)
    ensures FlagsAreRight(plan, ItemsOf(plan), artifacts)
  {
    forall i | 0 <= i < |plan| ensures plan[i].item in ItemsOf(plan) {
      assert ItemsOf(plan)[i] == plan[i].item;
    }
  }

  ghost predicate FlagsMatch(items: seq<Planned>, artifacts: set<Item>) {
    forall i | 0 <= i < |items| :: items[i].reusable <==> items[i].item in artifacts
  }

  lemma {:induction false} MissingAppend(a: seq<Planned>, b: seq<Planned>)
    ensures Missing(a + b) == Missing(a) + Missing(b)
  {
    if a == [] {
      assert a + b == b;
    } else {
      MissingAppend(a[1..], b);
      assert (a + b)[1..] == a[1..] + b;
    }
  }

  /** `after` extends `before` by items that were not held, each at most once. */
  ghost predicate Logged(before: seq<Item>, after: seq<Item>, held: set<Item>) {
    && |before| <= |after| && after[..|before|] == before
    && (forall i | |before| <= i < |after| :: after[i] !in held)
    && (forall i, j | |before| <= i < j < |after| :: after[i] != after[j])
  }

  ghost predicate LogIsDurable(before: seq<Item>, after: seq<Item>, artifacts: set<Item>) {
    forall i | |before| <= i < |after| :: after[i] in artifacts
  }

  lemma LogGrows(before: seq<Item>, log: seq<Item>, item: Item, held: set<Item>, artifacts: set<Item>)
    requires Logged(before, log, held) && LogIsDurable(before, log, artifacts) && held <= artifacts && item !in artifacts
    ensures Logged(before, log + [item], held)
  {
  }

  lemma LogsJoin(before: seq<Item>, log: seq<Item>, after: seq<Item>, held: set<Item>, artifacts: set<Item>)
    requires Logged(before, log, held) && LogIsDurable(before, log, artifacts) && held <= artifacts
    requires Logged(log, after, artifacts)
    ensures Logged(before, after, held)
  {
    assert forall i | 0 <= i < |log| :: after[..|log|][i] == log[i];
    assert forall i | 0 <= i < |before| :: log[..|before|][i] == before[i];
    assert after[..|before|] == before;
  }

  lemma LogsStayDurable(before: seq<Item>, log: seq<Item>, after: seq<Item>, held: set<Item>, artifacts: set<Item>)
    requires LogIsDurable(before, log, held) && held <= artifacts && |before| <= |log|
    requires |log| <= |after| && after[..|log|] == log && LogIsDurable(log, after, artifacts)
    ensures LogIsDurable(before, after, artifacts)
  {
    assert forall i | 0 <= i < |log| :: after[..|log|][i] == log[i];
  }

  lemma SkipReusable(s: Snapshot, plan: seq<Item>, artifacts: set<Item>, p: Planned, rest: seq<Planned>)
    requires OnTrack(s, plan, artifacts, [p] + rest) && p.reusable
    ensures OnTrack(s, plan, artifacts, rest)
  {
    assert ([p] + rest)[0] == p && ([p] + rest)[1..] == rest;
    RestStaysRight(p, rest, plan, artifacts);
  }

  lemma RestStaysRight(p: Planned, rest: seq<Planned>, plan: seq<Item>, artifacts: set<Item>)
    requires DistinctSegments([p] + rest) && FlagsAreRight([p] + rest, plan, artifacts)
    ensures DistinctSegments(rest) && FlagsAreRight(rest, plan, artifacts)
    ensures FlagsAreRight(rest, plan, artifacts + {p.item})
  {
    var all := [p] + rest;
    forall i | 0 <= i < |rest|
      ensures rest[i] == all[i + 1] && rest[i].item != p.item
      ensures (rest[i].reusable <==> rest[i].item in artifacts) && rest[i].item in plan && !Blank(rest[i].item.segmentId)
    {
      assert all[0] == p && all[i + 1] == rest[i];
    }
    assert forall i, j | 0 <= i < j < |rest| :: all[i + 1] == rest[i] && all[j + 1] == rest[j];
  }

  /**
   * Any render command on any readable job saves only jobs that the validator reads back unchanged
   * and that never count more than the durable recordings of their plan; it keeps every artifact and
   * renders none that was durable. Without faults it succeeds exactly when it `Serves`.
   */
  method RenderReadably(stored: Snapshot, command: Command, artifacts: set<Item>, fate: nat -> Fate,
                        ghost earlier: seq<seq<Item>>)
    returns (end: Ending, saved: Snapshot, durable: set<Item>, rendered: seq<Item>, ghost closing: Option<nat>)
    requires Sound(stored) && Truthful(stored, earlier, artifacts)
    requires ProperCommand(command, artifacts)
    ensures Sound(saved) && Reconstituted(saved) == Some(saved)
    ensures Truthful(saved, earlier + [PlanFor(command, artifacts)], durable)
    ensures artifacts <= durable && Logged([], rendered, artifacts)
    ensures IsExposed(stored, command) ==> end == Succeeded && saved == stored && rendered == []
    ensures end == Succeeded ==>
      && Serves(stored, command, PlanOfAll(command.chapters, artifacts)) && saved.state == Completed
      && (!IsExposed(stored, command) ==> saved.catalogRevision == Some(command.revision))
    ensures (forall n: nat :: fate(n) == Works) && Serves(stored, command, PlanOfAll(command.chapters, artifacts)) ==> end == Succeeded
    ensures closing.Some? && fate(closing.value) == Works ==>
      && end == Threw && (Recorded(saved, command) || FailedWith(saved, command.problem))
      && (saved.stage == Assembling ==> NotDurable(PlanFor(command, artifacts), durable) == 0)
    ensures closing.None? && end == Threw && !Blank(command.problem) && saved.state == Running ==>
      saved == stored || exists n: nat :: fate(n) == Faults
  {
    SoundIsClosed();
    ghost var plans := earlier + [PlanFor(command, artifacts)];
    var workspace := new RenderWorkspace(fate, stored, artifacts, (s: Snapshot) => Sound(s), plans);
    var job := new AudiobookJob.Reconstitute(stored);
    assert plans[|earlier|] == PlanFor(command, artifacts);
    TruthGrows(stored, earlier, plans, artifacts, artifacts);
    ReadsBack(stored);
    ReadableMayRender(stored);
    end, closing := workspace.Execute(job, command, PlanOfAll(command.chapters, artifacts));
    ReadsBack(workspace.storedJob);
    return end, workspace.storedJob, workspace.artifacts, workspace.rendered, closing;
  }

  function PlanFor(command: Command, artifacts: set<Item>): seq<Item> {
    ItemsOf(PlanOfAll(command.chapters, artifacts))
  }

  ghost predicate ProperCommand(command: Command, artifacts: set<Item>) {
    ProperScript(command.chapters, PlanOfAll(command.chapters, artifacts), artifacts) && Safe(command.revision)
  }

  /** Being a proper script and its items are no matter of what is durable. */
  lemma {:induction false} PlanKeepsItems(chapters: seq<(string, seq<Item>)>, a: set<Item>, b: set<Item>)
    ensures |PlanOfAll(chapters, a)| == |PlanOfAll(chapters, b)|
    ensures forall i | 0 <= i < |PlanOfAll(chapters, a)| :: PlanOfAll(chapters, a)[i].item == PlanOfAll(chapters, b)[i].item
  {
    if chapters != [] {
      PlanKeepsItems(chapters[1..], a, b);
    }
  }

  lemma ProperForAll(command: Command, a: set<Item>, b: set<Item>)
    requires ProperCommand(command, a)
    ensures ProperCommand(command, b) && PlanFor(command, a) == PlanFor(command, b)
  {
    PlanKeepsItems(command.chapters, a, b);
  }

  /** A recorded failure can be rendered on by the same command without consent. */
  lemma FailureIsServed(saved: Snapshot, command: Command, artifacts: set<Item>, durable: set<Item>)
    requires ProperCommand(command, artifacts) && FailedWith(saved, command.problem)
    requires saved.stage == Assembling ==> NotDurable(PlanFor(command, artifacts), durable) == 0
    ensures ProperCommand(command, durable)
    ensures Serves(saved, command.(recover := false, outputFits := true), PlanOfAll(command.chapters, durable))
  {
    ProperForAll(command, artifacts, durable);
    PlanCountsFor(command.chapters, PlanOfAll(command.chapters, durable), durable);
  }

  /** After a failure was recorded, whatever it was, the same command succeeds without consent once nothing fails. */
  method RetryAfterFailure(stored: Snapshot, command: Command, artifacts: set<Item>, fate: nat -> Fate,
                           ghost earlier: seq<seq<Item>>)
    returns (first: Ending, failed: Snapshot, second: Ending, ghost closing: Option<nat>)
    requires Sound(stored) && Truthful(stored, earlier, artifacts) && ProperCommand(command, artifacts) && !command.aborted
    ensures closing.Some? && fate(closing.value) == Works ==> first == Threw && FailedWith(failed, command.problem) && second == Succeeded
  {
    var durable, log;
    first, failed, durable, log, closing := RenderReadably(stored, command, artifacts, fate, earlier);
    var retry := command.(recover := false, outputFits := true);
    ProperForAll(command, artifacts, durable);
    var saved, after, more;
    ghost var closing';
    second, saved, after, more, closing' :=
      RenderReadably(failed, retry, durable, (n: nat) => Works, earlier + [PlanFor(command, artifacts)]);
    if closing.Some? && fate(closing.value) == Works {
      FailureIsServed(failed, command, artifacts, durable);
    }
  }

  lemma AssemblingMayBePublished(s: Snapshot)
    requires Sound(s) && s.stage == Assembling
    ensures s.bookId.Some? && s.progress.totalSegments >= 1
  {
  }

  lemma ReadsBack(s: Snapshot)
    requires Sound(s)
    ensures Reconstituted(s) == Some(s) && Validates(s)
  {
    EverySnapshotRoundTrips(s, []);
  }

  /**
   * The one failure that is never recorded: when only the last save faults, of the completed job, the
   * stored job stays running, and no later command without consent goes on with it.
   */
  method LostOutputStaysRunning(stored: Snapshot, plan: seq<Item>, artifacts: set<Item>, command: Command)
    returns (end: Ending, saved: Snapshot)
    requires Sound(stored) && stored.state == Running && stored.stage == Assembling && Honest(stored, plan, artifacts)
    requires command.outputFits && Safe(command.revision)
    ensures end == Threw && saved == stored
    ensures forall later: Command, planned | !later.recover :: !Serves(saved, later, planned)
  {
    SoundIsClosed();
    var fate := (n: nat) => if n == 1 then Faults else Works;
    var workspace := new RenderWorkspace(fate, stored, artifacts, (s: Snapshot) => Sound(s), [plan]);
    var job := new AudiobookJob.Reconstitute(stored);
    ReadsBack(stored);
    AssemblingMayBePublished(stored);
    HonestIsTruthful(stored, plan, [plan], artifacts);
    ghost var closing;
    end, closing := workspace.PublishOrGiveUp(job, command);
    saved := workspace.storedJob;
  }

  // ---------------------------------------------------------------- every sequence of commands

  /** One command as it ended: what was durable, what was rendered, what is durable and saved now. */
  datatype Pass = Pass(before: set<Item>, log: seq<Item>, after: set<Item>, plan: seq<Item>, saved: Snapshot)

  ghost predicate GoodPass(pass: Pass) {
    pass.before <= pass.after && Logged([], pass.log, pass.before)
  }

  /** Passes in order; artifacts persist between them. */
  ghost predicate ArePasses(passes: seq<Pass>) {
    && (forall n | 0 <= n < |passes| :: GoodPass(passes[n]))
    && (forall m, n | 0 <= m < n < |passes| && n == m + 1 :: passes[m].after <= passes[n].before)
  }

  lemma {:induction false} ArtifactsPersist(passes: seq<Pass>, m: nat, n: nat)
    requires ArePasses(passes) && m < n < |passes|
    ensures passes[m].after <= passes[n].before
    decreases n - m
  {
    if m + 1 < n {
      ArtifactsPersist(passes, m, n - 1);
      assert GoodPass(passes[n - 1]);
    }
  }

  /** A durable (segment, identity) pair is never rendered again, and no pass renders a pair twice. */
  lemma NeverRenderedAgain(passes: seq<Pass>, m: nat, n: nat, item: Item)
    requires ArePasses(passes) && m < n < |passes| && item in passes[m].after
    ensures item !in passes[n].log
    ensures forall i, j | 0 <= i < j < |passes[n].log| :: passes[n].log[i] != passes[n].log[j]
  {
    ArtifactsPersist(passes, m, n);
    assert GoodPass(passes[n]);
  }

  function PlansOf(passes: seq<Pass>): seq<seq<Item>> {
    seq(|passes|, n requires 0 <= n < |passes| => passes[n].plan)
  }

  /** The job after a reviewer may have reopened it between two commands. */
  function MaybeReopened(s: Snapshot, reopened: bool): Snapshot {
    if reopened && s.state == Completed then Reopened(s).value else s
  }

  lemma ReopeningIsSound(s: Snapshot, reopened: bool, plans: seq<seq<Item>>, artifacts: set<Item>)
    requires Sound(s) && Truthful(s, plans, artifacts)
    ensures Sound(MaybeReopened(s, reopened)) && Truthful(MaybeReopened(s, reopened), plans, artifacts)
  {
    if reopened && s.state == Completed {
      CallKeepsSound(s, Call.ReopenForReview);
      var n :| 0 <= n < |plans| && Honest(s, plans[n], artifacts);
      assert Honest(Reopened(s).value, plans[n], artifacts);
    }
  }

  /** The saved job reads back unchanged and counts no more than what is durable of one of `plans`. */
  ghost predicate Tells(pass: Pass, plans: seq<seq<Item>>, plan: seq<Item>) {
    && pass.plan == plan && Reconstituted(pass.saved) == Some(pass.saved) && Truthful(pass.saved, plans, pass.after)
  }

  ghost predicate AllTell(passes: seq<Pass>, initial: seq<Item>, commands: seq<Command>, artifacts: set<Item>)
    requires |passes| <= |commands|
  {
    forall n | 0 <= n < |passes| ::
      Tells(passes[n], [initial] + PlansOf(passes[..n + 1]), PlanFor(commands[n], artifacts))
  }

  lemma TellOneMore(passes: seq<Pass>, pass: Pass, initial: seq<Item>, commands: seq<Command>, artifacts: set<Item>)
    requires |passes| < |commands| && AllTell(passes, initial, commands, artifacts)
    requires Tells(pass, [initial] + PlansOf(passes) + [pass.plan], PlanFor(commands[|passes|], artifacts))
    ensures AllTell(passes + [pass], initial, commands, artifacts)
    ensures [initial] + PlansOf(passes + [pass]) == [initial] + PlansOf(passes) + [pass.plan]
  {
    var all := passes + [pass];
    assert PlansOf(all) == PlansOf(passes) + [pass.plan];
    forall n | 0 <= n < |all| ensures Tells(all[n], [initial] + PlansOf(all[..n + 1]), PlanFor(commands[n], artifacts)) {
      if n < |passes| {
        assert all[..n + 1] == passes[..n + 1];
      } else {
        assert all[..n + 1] == all;
        assert [initial] + PlansOf(all) == [initial] + PlansOf(passes) + [pass.plan];
      }
    }
    assert [initial] + PlansOf(all) == [initial] + PlansOf(passes) + [pass.plan];
  }

  lemma OneMorePass(passes: seq<Pass>, pass: Pass)
    requires ArePasses(passes) && GoodPass(pass) && (passes != [] ==> passes[|passes| - 1].after <= pass.before)
    ensures ArePasses(passes + [pass])
  {
  }

  /**
   * Over any sequence of render commands with any faults, deaths and reopenings between them, every
   * saved job reads back unchanged and counts no more than the durable recordings of the plan of a
   * command up to then.
   */
  method RenderRepeatedly(stored: Snapshot, initial: seq<Item>, artifacts: set<Item>, commands: seq<Command>,
                          fates: nat -> nat -> Fate, reopened: nat -> bool)
    returns (passes: seq<Pass>)
    requires Sound(stored) && Honest(stored, initial, artifacts)
    requires forall n | 0 <= n < |commands| :: ProperCommand(commands[n], artifacts)
    ensures |passes| == |commands| && ArePasses(passes) && AllTell(passes, initial, commands, artifacts)
  {
    passes := [];
    var job, durable := stored, artifacts;
    assert ([initial] + PlansOf(passes))[0] == initial;
    HonestIsTruthful(stored, initial, [initial] + PlansOf(passes), artifacts);
    for k := 0 to |commands|
      invariant |passes| == k && ArePasses(passes) && AllTell(passes, initial, commands, artifacts)
      invariant k > 0 ==> passes[k - 1].after == durable
      invariant Sound(job) && Truthful(job, [initial] + PlansOf(passes), durable)
    {
      var pass := RenderOnce(job, [initial] + PlansOf(passes), artifacts, durable, commands[k], fates(k), reopened(k));
      OneMorePass(passes, pass);
      TellOneMore(passes, pass, initial, commands, artifacts);
      passes, job, durable := passes + [pass], pass.saved, pass.after;
    }
  }

  method RenderOnce(job: Snapshot, ghost plans: seq<seq<Item>>, artifacts: set<Item>, durable: set<Item>, command: Command,
                    fate: nat -> Fate, reopened: bool) returns (pass: Pass)
    requires Sound(job) && Truthful(job, plans, durable) && ProperCommand(command, artifacts)
    ensures GoodPass(pass) && pass.before == durable && Sound(pass.saved)
    ensures Tells(pass, plans + [pass.plan], PlanFor(command, artifacts))
  {
    ReopeningIsSound(job, reopened, plans, durable);
    ProperForAll(command, artifacts, durable);
    var end, saved, after, log;
    ghost var closing;
    end, saved, after, log, closing := RenderReadably(MaybeReopened(job, reopened), command, durable, fate, plans);
    return Pass(durable, log, after, PlanFor(command, artifacts), saved);
  }
}
