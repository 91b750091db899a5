/**
 * Directing a book chapter by chapter, across failures, process deaths and resumes
 * (packages/application/src/direct-audiobook.ts).
 */
module DirectionRuns {
  import opened Wrappers
  import opened Text
  import opened AudiobookJob

  /** One progress report of the director and how its call for the chapter ends. */
  datatype PassageReport = PassageReport(chapterId: string, completedPassages: int, totalPassages: int, message: string)

  datatype DirectorEnd = Directs | DirectorThrows | DiesDirecting

  datatype DirectorCall = DirectorCall(reports: seq<PassageReport>, end: DirectorEnd)

  /** What becomes of one write to the repository. */
  datatype Fate = Works | Faults | Dies

  function Max(a: int, b: int): int {
    if a > b then a else b
  }

  datatype Ending = Succeeded | Threw | Died

  function EndingOf(f: Fate): Ending {
    match f
    case Works => Succeeded
    case Faults => Threw
    case Dies => Died
  }

  /** A report on this chapter, with possible counts and a message. */
  predicate ValidReport(report: PassageReport, chapterId: string, passages: nat) {
    && report.chapterId == chapterId && report.totalPassages == passages && 0 <= report.completedPassages <= passages
    && !Blank(report.message)
  }

  /** The director reports properly and directs the chapter. */
  predicate Cooperates(call: DirectorCall, chapterId: string, passages: nat) {
    call.end.Directs? && forall r | 0 <= r < |call.reports| :: ValidReport(call.reports[r], chapterId, passages)
  }

  function Total(passages: seq<nat>, n: nat): nat
    requires n <= |passages|
  {
    if n == 0 then 0 else Total(passages, n - 1) + passages[n - 1]
  }

  lemma {:induction false} TotalGrows(passages: seq<nat>, a: nat, b: nat)
    requires a <= b <= |passages|
    ensures Total(passages, a) <= Total(passages, b)
  {
    if a < b {
      TotalGrows(passages, a, b - 1);
    }
  }

  /** Exactly the first `k` chapters of the script are approved. */
  ghost predicate ApprovedPrefix(script: seq<bool>, k: nat) {
    k <= |script| && forall i | 0 <= i < |script| :: script[i] <==> i < k
  }

  function Range(a: nat, b: nat): seq<nat>
    requires a <= b
  {
    seq(b - a, i requires 0 <= i < b - a => a + i)
  }

  predicate ProperBook(passages: seq<nat>, chapterIds: seq<string>) {
    && |passages| >= 1 && |chapterIds| == |passages|
    && (forall i | 0 <= i < |passages| :: passages[i] >= 1 && !Blank(chapterIds[i]))
    && Safe(Total(passages, |passages|)) && Safe(|passages|)
  }

  lemma ApproveNext(script: seq<bool>, i: nat)
    requires ApprovedPrefix(script, i) && i < |script|
    ensures ApprovedPrefix(script[i := true], i + 1)
  {
  }

  lemma RangeJoins(log: seq<nat>, a: nat, b: nat, c: nat)
    requires a <= b <= c
    ensures log + Range(a, b) + Range(b, c) == log + Range(a, c)
  {
    assert Range(a, b) + Range(b, c) == Range(a, c);
  }

  lemma RangeGrows(a: nat, b: nat)
    requires a <= b
    ensures Range(a, b) + [b] == Range(a, b + 1)
  {
  }

  /** The job is directing and its durable counts are those of the first `k` chapters. */
  predicate DirectingAt(s: Snapshot, passages: seq<nat>, k: nat)
    requires k <= |passages|
  {
    && s.state == Running && s.stage == Directing && s.bookId.Some?
    && s.progress.direction == Some(Direction(k, |passages|, Total(passages, k), Total(passages, |passages|)))
  }

  /** The job is working on chapter `i`, between its durable counts before and after that chapter. */
  predicate WorkingOn(s: Snapshot, passages: seq<nat>, i: nat)
    requires i < |passages|
  {
    && s.state == Running && s.stage == Directing && s.bookId.Some? && s.progress.direction.Some?
    && var d := s.progress.direction.value;
       && d.completedChapters == i && d.totalChapters == |passages| && d.totalPassages == Total(passages, |passages|)
       && Total(passages, i) <= d.completedPassages <= Total(passages, i + 1)
  }

  class DirectionWorkspace {
    const passages: seq<nat>
    const chapterIds: seq<string>
    const fate: nat -> Fate
    var writes: nat
    var storedScript: seq<bool>
    var storedJob: Snapshot
    /** Every chapter handed to the director, in order. */
    var directed: seq<nat>
    /** What is shown of every saved job; any property its calls keep. */
    ghost const accepts: Snapshot -> bool

    constructor (passages: seq<nat>, chapterIds: seq<string>, fate: nat -> Fate, job: Snapshot, ghost accepts: Snapshot -> bool)
      ensures this.fate == fate && this.accepts == accepts
      ensures this.passages == passages && this.chapterIds == chapterIds
      ensures storedScript == [] && storedJob == job && directed == []
    {
      this.passages, this.chapterIds, this.fate := passages, chapterIds, fate;
      this.accepts := accepts;
      writes, storedScript, storedJob, directed := 0, [], job, [];
    }

    /** The stored snapshot and the job in memory are accepted. */
    ghost predicate Readable(job: AudiobookJob)
      reads this`storedJob, job
    {
      Closed(accepts) && accepts(storedJob) && accepts(job.TakeSnapshot())
    }

    /** No write faults and the process lives. */
    ghost predicate Faultless() {
      forall n: nat :: fate(n) == Works
    }

    /** And the director works on every chapter. */
    ghost predicate AllWork(calls: nat -> DirectorCall)
      requires Proper()
    {
      Faultless() && forall i: nat | i < |passages| :: Cooperates(calls(i), chapterIds[i], passages[i])
    }

    method SaveJob(job: AudiobookJob) returns (end: Ending)
      requires Readable(job)
      modifies this`writes, this`storedJob
      ensures Readable(job) && end == EndingOf(fate(old(writes))) && writes == old(writes) + 1
      ensures storedJob == if end == Succeeded then job.TakeSnapshot() else old(storedJob)
    {
      end := EndingOf(fate(writes));
      writes := writes + 1;
      if end == Succeeded { storedJob := job.TakeSnapshot(); }
    }

    method SaveBook(script: seq<bool>) returns (end: Ending)
      modifies this`writes, this`storedScript
      ensures end == EndingOf(fate(old(writes)))
      ensures storedScript == if end == Succeeded then script else old(storedScript)
    {
      end := EndingOf(fate(writes));
      writes := writes + 1;
      if end == Succeeded { storedScript := script; }
    }

    predicate Proper() {
      ProperBook(passages, chapterIds)
    }

    method Record(job: AudiobookJob, chapterId: string, chapters: int, recorded: int, message: string) returns (ok: bool)
      requires Readable(job)
      modifies job
      ensures Readable(job)
      ensures ok <==> RecordsDirection(old(job.TakeSnapshot()), chapterId, chapters, recorded, message)
      ensures ok ==> job.TakeSnapshot() == WithDirection(old(job.TakeSnapshot()), chapterId, chapters, recorded, message)
      ensures !ok ==> job.TakeSnapshot() == old(job.TakeSnapshot())
    {
      ghost var before := job.TakeSnapshot();
      ok := job.RecordDirectionProgress(chapterId, chapters, recorded, message);
      MadeKeeps(accepts, before, Call.RecordDirectionProgress(chapterId, chapters, recorded, message), ok, job.TakeSnapshot());
    }

    /** While directing, the stored job is directing, too. */
    ghost predicate Active(job: AudiobookJob)
      reads this`storedJob, job
    {
      Readable(job) && storedJob.stage == Directing && job.stage == Directing
    }

    /** Progress the loop itself reports is always recorded. */
    method RecordAndSave(job: AudiobookJob, chapterId: string, chapters: int, recorded: int, message: string) returns (end: Ending)
      requires Active(job) && RecordsDirection(job.TakeSnapshot(), chapterId, chapters, recorded, message)
      modifies job, this`writes, this`storedJob
      ensures Active(job)
      ensures job.TakeSnapshot() == WithDirection(old(job.TakeSnapshot()), chapterId, chapters, recorded, message)
      ensures end == EndingOf(fate(old(writes)))
    {
      var ok := Record(job, chapterId, chapters, recorded, message);
      assert ok;
      end := SaveJob(job);
    }

    /** Records one report: a valid one is only lost when its write is, an invalid one is refused and not written. */
    method OnProgress(job: AudiobookJob, i: nat, report: PassageReport) returns (end: Ending)
      requires Proper() && i < |passages| && WorkingOn(job.TakeSnapshot(), passages, i)
      requires Active(job)
      modifies job, this`writes, this`storedJob
      ensures Active(job)
      ensures WorkingOn(job.TakeSnapshot(), passages, i)
      ensures if ValidReport(report, chapterIds[i], passages[i]) then
                && end == EndingOf(fate(old(writes)))
                && RecordedPassages(job) == Max(old(RecordedPassages(job)), Total(passages, i) + report.completedPassages)
                && job.progress.latestMessage == report.message
              else
                end == Threw && writes == old(writes) && job.TakeSnapshot() == old(job.TakeSnapshot())
    {
      if report.chapterId != chapterIds[i] || report.totalPassages != passages[i]
         || report.completedPassages < 0 || report.completedPassages > report.totalPassages
      {
        return Threw;
      }
      var reached := Total(passages, i) + report.completedPassages;
      TotalGrows(passages, i + 1, |passages|);
      var ok := Record(job, chapterIds[i], i, Max(RecordedPassages(job), reached), report.message);
      assert ok <==> !Blank(report.message);
      if !ok { return Threw; }
      end := SaveJob(job);
    }

    function RecordedPassages(job: AudiobookJob): int
      reads job
      requires job.progress.direction.Some?
    {
      job.progress.direction.value.completedPassages
    }

    /** Listens to the director while it works on chapter `i`. */
    method Listen(job: AudiobookJob, i: nat, call: DirectorCall) returns (end: Ending)
      requires Proper() && i < |passages| && WorkingOn(job.TakeSnapshot(), passages, i)
      requires Active(job)
      modifies job, this`writes, this`storedJob
      ensures Active(job)
      ensures WorkingOn(job.TakeSnapshot(), passages, i)
      ensures Faultless() && Cooperates(call, chapterIds[i], passages[i]) ==> end == Succeeded
      ensures end == Succeeded ==> Cooperates(call, chapterIds[i], passages[i])
    {
      for r := 0 to |call.reports|
        invariant WorkingOn(job.TakeSnapshot(), passages, i) && Active(job)
        invariant forall q | 0 <= q < r :: ValidReport(call.reports[q], chapterIds[i], passages[i])
      {
        end := OnProgress(job, i, call.reports[r]);
        if end != Succeeded { return; }
      }
      end := match call.end case Directs => Succeeded case DirectorThrows => Threw case DiesDirecting => Died;
    }

    /** The job counts the directed chapter. */
    method CountChapter(job: AudiobookJob, i: nat)
      requires Proper() && i < |passages| && WorkingOn(job.TakeSnapshot(), passages, i) && Readable(job)
      modifies job
      ensures Readable(job) && DirectingAt(job.TakeSnapshot(), passages, i + 1)
    {
      var chapters, counted := i + 1, Total(passages, i + 1);
      TotalGrows(passages, i + 1, |passages|);
      assert 0 <= counted <= Total(passages, |passages|) && Safe(counted) && Safe(chapters);
      var recorded := Record(job, chapterIds[i], chapters, counted, Words("Directed chapter"));
      assert recorded;
    }

    /** Persists the approved chapter, then the job that counts it. */
    method PersistChapter(job: AudiobookJob, i: nat, script: seq<bool>) returns (end: Ending, after: seq<bool>)
      requires Proper() && i < |passages| && |script| == |passages| && ApprovedPrefix(script, i) && storedScript == script
      requires WorkingOn(job.TakeSnapshot(), passages, i)
      requires Active(job)
      modifies job, this`writes, this`storedJob, this`storedScript
      ensures Active(job)
      ensures ApprovedPrefix(after, i + 1) && |after| == |passages|
      ensures DirectingAt(job.TakeSnapshot(), passages, i + 1)
      ensures storedScript == after || (storedScript == script && end != Succeeded)
      ensures Faultless() ==> end == Succeeded
    {
      after := script[i := true];
      ApproveNext(script, i);
      CountChapter(job, i);
      end := SaveBook(after);
      if end == Succeeded {
        end := SaveJob(job);
      }
    }

    /** Directs one draft chapter; recording its progress is never refused. */
    method DirectChapter(job: AudiobookJob, i: nat, script: seq<bool>, call: DirectorCall)
      returns (end: Ending, after: seq<bool>)
      requires Proper() && i < |passages| && |script| == |passages| && ApprovedPrefix(script, i) && storedScript == script
      requires DirectingAt(job.TakeSnapshot(), passages, i)
      requires Active(job)
      modifies job, this`writes, this`storedJob, this`storedScript, this`directed
      ensures Active(job)
      ensures end == Succeeded ==> ApprovedPrefix(after, i + 1) && |after| == |passages| && storedScript == after
      ensures end == Succeeded ==> DirectingAt(job.TakeSnapshot(), passages, i + 1) && directed == old(directed) + [i]
      ensures job.state == Running && job.stage == Directing
      ensures storedScript == script || (ApprovedPrefix(storedScript, i + 1) && |storedScript| == |script|)
      ensures directed == old(directed) + [i] || (directed == old(directed) && storedScript == script)
      ensures Faultless() && Cooperates(call, chapterIds[i], passages[i]) ==> end == Succeeded
    {
      after := script;
      TotalGrows(passages, i, |passages|);
      end := RecordAndSave(job, chapterIds[i], i, Total(passages, i), Words("Directing"));
      if end != Succeeded { return; }
      directed := directed + [i];
      end := Listen(job, i, call);
      if end == Succeeded {
        end, after := PersistChapter(job, i, script);
      }
    }

    /** A chapter persisted by an earlier pass is counted, never directed. */
    method ResumeChapter(job: AudiobookJob, i: nat, ghost k: nat) returns (end: Ending)
      requires Proper() && i < k <= |passages| && DirectingAt(job.TakeSnapshot(), passages, k)
      requires Active(job)
      modifies job, this`writes, this`storedJob
      ensures Active(job)
      ensures DirectingAt(job.TakeSnapshot(), passages, k) && (Faultless() ==> end == Succeeded)
    {
      end := Succeeded;
      if i + 1 >= job.progress.direction.value.completedChapters {
        TotalGrows(passages, k, |passages|);
        end := RecordAndSave(job, chapterIds[i], i + 1, Total(passages, i + 1), Words("Directed chapter"));
      }
    }

    /** Between two chapters: the stored script and the job agree on the first `m` chapters. */
    ghost predicate OnPass(job: AudiobookJob, script: seq<bool>, m: nat)
      reads this`storedJob, this`storedScript, job
    {
      && Active(job) && script == storedScript && |script| == |passages|
      && ApprovedPrefix(script, m) && DirectingAt(job.TakeSnapshot(), passages, m)
    }

    /** One turn of the loop: a persisted chapter is resumed, a draft chapter is directed. */
    method NextChapter(job: AudiobookJob, i: nat, script: seq<bool>, call: DirectorCall, ghost m: nat)
      returns (end: Ending, after: seq<bool>, ghost step: Pass)
      requires Proper() && i < |passages| && i <= m && OnPass(job, script, m)
      modifies job, this`writes, this`storedJob, this`storedScript, this`directed
      ensures Active(job) && job.state == Running && job.stage == Directing
      ensures GoodPass(step, m, |passages|)
      ensures |storedScript| == |passages| && ApprovedPrefix(storedScript, step.persisted)
      ensures directed == old(directed) + Range(m, step.directedTo)
      ensures end == Succeeded ==> step == (if i < m then Pass(m, m) else Pass(i + 1, i + 1)) && OnPass(job, after, step.persisted)
      ensures Faultless() && (i >= m ==> Cooperates(call, chapterIds[i], passages[i])) ==> end == Succeeded
    {
      after := script;
      if script[i] {
        end := ResumeChapter(job, i, m);
        step := Pass(m, m);
        assert Range(m, m) == [];
      } else {
        end, after := DirectChapter(job, i, script, call);
        assert Range(i, i) == [] && Range(i, i + 1) == [i];
        step := Pass(if storedScript == script then i else i + 1, if directed == old(directed) then i else i + 1);
      }
    }

    /** One pass over the book, of which `k` chapters were persisted before. */
    method DirectBook(job: AudiobookJob, ghost k: nat, calls: nat -> DirectorCall) returns (end: Ending, ghost pass: Pass)
      requires Proper() && OnPass(job, storedScript, k)
      modifies job, this`writes, this`storedJob, this`storedScript, this`directed
      ensures Active(job) && job.state == Running && job.stage == Directing
      ensures end == Succeeded ==> DirectingAt(job.TakeSnapshot(), passages, |passages|)
      ensures GoodPass(pass, k, |passages|) && (end == Succeeded ==> pass.persisted == |passages|)
      ensures |storedScript| == |passages| && ApprovedPrefix(storedScript, pass.persisted)
      ensures directed == old(directed) + Range(k, pass.directedTo)
      ensures AllWork(calls) ==> end == Succeeded
    {
      var script := storedScript;
      ghost var m: nat := k;
      assert Range(k, k) == [];
      for i := 0 to |passages|
        invariant m == (if i < k then k else i) && OnPass(job, script, m)
        invariant directed == old(directed) + Range(k, m)
      {
        ghost var step: Pass;
        end, script, step := NextChapter(job, i, script, calls(i), m);
        RangeJoins(old(directed), k, m, step.directedTo);
        if end != Succeeded { return end, step; }
        m := step.persisted;
      }
      return Succeeded, Pass(|passages|, |passages|);
    }

    /** Counts what the persisted script proves, for the checkpoint of a resume. */
    method CountApproved(ghost k: nat) returns (chapters: nat, counted: nat)
      requires Proper() && |storedScript| == |passages| && ApprovedPrefix(storedScript, k)
      ensures chapters == k && counted == Total(passages, k)
    {
      chapters, counted := 0, 0;
      for i := 0 to |passages|
        invariant chapters == (if i < k then i else k) && counted == Total(passages, if i < k then i else k)
      {
        if storedScript[i] {
          chapters, counted := chapters + 1, counted + passages[i];
        }
      }
    }

    method Abandon(job: AudiobookJob)
      requires Readable(job) && job.state == Running
      modifies job
      ensures Readable(job) && job.state == Abandoned && job.stage == old(job.stage) && job.bookId == old(job.bookId)
      ensures job.commandIdentity == old(job.commandIdentity)
    {
      ghost var before := job.TakeSnapshot();
      var ok := job.MarkAbandoned();
      MadeKeeps(accepts, before, Call.MarkAbandoned, ok, job.TakeSnapshot());
    }

    method ResumeAt(job: AudiobookJob, direction: Direction)
      requires Readable(job) && job.state in {Failed, Abandoned} && job.stage == Directing && job.bookId.Some?
      requires GoodDirection(direction)
      modifies job
      ensures Readable(job) && job.state == Running && job.stage == Directing && job.bookId.Some?
      ensures job.progress.direction == Some(direction)
    {
      ghost var before := job.TakeSnapshot();
      var ok := job.ResumeFailedStage(AtDirecting(direction));
      MadeKeeps(accepts, before, Call.ResumeFailedStage(AtDirecting(direction)), ok, job.TakeSnapshot());
    }

    /** A book can be attached unless another one is. */
    method Attach(job: AudiobookJob, bookId: string) returns (ok: bool)
      requires Readable(job) && job.state == Running && job.stage == Extracting
      modifies job
      ensures Readable(job) && job.state == Running && job.stage == Extracting
      ensures ok <==> FitsBook(old(job.TakeSnapshot()), bookId)
      ensures job.bookId == if ok then Some(bookId) else old(job.bookId)
    {
      ghost var before := job.TakeSnapshot();
      ok := job.AttachBook(bookId);
      MadeKeeps(accepts, before, Call.AttachBook(bookId), ok, job.TakeSnapshot());
    }

    method Begin(job: AudiobookJob, chapters: nat, total: nat)
      requires Readable(job) && job.state == Running && job.stage == Extracting && job.bookId.Some?
      requires 1 <= chapters <= total && Safe(chapters) && Safe(total)
      modifies job
      ensures Readable(job) && job.state == Running && job.stage == Directing && job.bookId.Some?
      ensures job.progress.direction == Some(Direction(0, chapters, 0, total))
    {
      ghost var before := job.TakeSnapshot();
      var ok := job.BeginDirection(chapters, total);
      MadeKeeps(accepts, before, Call.BeginDirection(chapters, total), ok, job.TakeSnapshot());
    }

    method Await(job: AudiobookJob)
      requires Readable(job) && DirectingAt(job.TakeSnapshot(), passages, |passages|)
      modifies job
      ensures Readable(job) && job.state == AwaitingReview && job.stage == Directing
    {
      ghost var before := job.TakeSnapshot();
      var ok := job.AwaitReview();
      assert ok;
      MadeKeeps(accepts, before, Call.AwaitReview, ok, job.TakeSnapshot());
    }

    /** The stored script is an approved prefix of `k` chapters, as both jobs take it to be. */
    ghost predicate Kept(job: AudiobookJob, k: nat)
      reads this`storedJob, this`storedScript, job
    {
      && Readable(job)
      && Keeps(storedJob, storedScript, k, |passages|) && Keeps(job.TakeSnapshot(), storedScript, k, |passages|)
    }

    /** Saves a job that went into another state of its stage. */
    method SaveMoved(job: AudiobookJob, ghost k: nat) returns (end: Ending)
      requires Kept(job, k)
      modifies this`writes, this`storedJob
      ensures Kept(job, k) && (Faultless() ==> end == Succeeded)
      ensures end == EndingOf(fate(old(writes))) && writes == old(writes) + 1
      ensures storedJob == if end == Succeeded then job.TakeSnapshot() else old(storedJob)
    {
      end := SaveJob(job);
    }

    /** Fails the job; a failure without a message cannot be recorded and throws. */
    method Break(job: AudiobookJob, problem: string) returns (ok: bool)
      requires Readable(job) && job.state == Running
      modifies job
      ensures Readable(job) && job.stage == old(job.stage) && job.bookId == old(job.bookId) && (ok <==> !Blank(problem))
      ensures ok ==> job.state == Failed && job.error == Some(problem)
    {
      ghost var before := job.TakeSnapshot();
      ok := job.Fail(problem, None);
      MadeKeeps(accepts, before, Call.Fail(problem, None), ok, job.TakeSnapshot());
    }

    /**
     * The end of a pass that threw: an aborted one is abandoned, another one fails with its problem, and
     * that is saved. `closing` is the write that saves it; a failure without a message has none.
     */
    method GiveUp(job: AudiobookJob, ghost k: nat, command: Command) returns (end: Ending, ghost closing: Option<nat>)
      requires Kept(job, k) && job.state == Running && job.stage in {Extracting, Directing}
      modifies job, this`writes, this`storedJob
      ensures Kept(job, k) && end != Succeeded
      ensures job.stage == old(job.stage) && job.bookId == old(job.bookId)
      ensures storedJob == old(storedJob) || storedJob.stage == job.stage
      ensures closing == if HasCause(command) then Some(old(writes)) else None
      ensures closing.Some? ==> Recorded(job.TakeSnapshot(), command) && Settles(job, end, closing.value)
    {
      var moved := true;
      if command.aborted {
        Abandon(job);
      } else {
        moved := Break(job, command.problem);
      }
      end, closing := Threw, None;
      if moved {
        closing := Some(writes);
        end := SaveMoved(job, k);
        if end == Succeeded { end := Threw; }
      }
    }

    /** The last write was to save this job; unless it failed, the job is stored, and the cause is thrown. */
    ghost predicate Settles(job: AudiobookJob, end: Ending, closing: nat)
      reads this`writes, this`storedJob, job
    {
      && closing + 1 == writes && end == (if fate(closing) == Dies then Died else Threw)
      && (fate(closing) == Works ==> storedJob == job.TakeSnapshot())
    }

    /** A failed command has stored its failure, or its last write failed, or it changed no running job. */
    ghost predicate LeavesNoneRunning(job: AudiobookJob, found: Snapshot, end: Ending, closing: Option<nat>, command: Command)
      reads this`writes, this`storedJob, job
    {
      if closing.Some? then Recorded(job.TakeSnapshot(), command) && Settles(job, end, closing.value)
      else end == Threw && HasCause(command) && storedJob.state == Running ==> storedJob == found || LostReview(job)
    }

    /** The whole book was directed, and only the last save, of the job in review, failed. */
    ghost predicate LostReview(job: AudiobookJob)
      reads this`writes, job
    {
      job.state == AwaitingReview && writes > 0 && fate(writes - 1) == Faults
    }

    /** Takes over an interrupted direction: the checkpoint is always accepted. */
    method Rebase(job: AudiobookJob, ghost k: nat) returns (end: Ending)
      requires Proper() && Kept(job, k)
      requires job.state in {Running, Failed, Abandoned} && job.stage == Directing && job.bookId.Some?
      modifies job, this`writes, this`storedJob
      ensures Kept(job, k) && (storedJob == old(storedJob) || storedJob.stage == Directing)
      ensures end != Succeeded ==> storedJob == old(storedJob) || storedJob.state == Abandoned
      ensures end == Succeeded ==> storedJob == job.TakeSnapshot() && DirectingAt(job.TakeSnapshot(), passages, k)
      ensures Faultless() ==> end == Succeeded
    {
      if job.state == Running {
        Abandon(job);
        end := SaveMoved(job, k);
        if end != Succeeded { return; }
      }
      var chapters, counted := CountApproved(k);
      TotalGrows(passages, k, |passages|);
      TotalIsPositive(|passages|);
      ResumeAt(job, Direction(chapters, |passages|, counted, Total(passages, |passages|)));
      end := SaveMoved(job, k);
    }

    lemma {:induction false} TotalIsPositive(n: nat)
      requires Proper() && n <= |passages|
      ensures Total(passages, n) >= n
    {
      if n > 0 {
        TotalIsPositive(n - 1);
      }
    }

    /** Extracts the book and starts directing it: the draft script is persisted first, then the job. */
    method BeginFresh(job: AudiobookJob, bookId: string) returns (end: Ending)
      requires Proper() && Kept(job, 0) && job.state == Running && job.stage == Extracting
      modifies job, this`writes, this`storedJob, this`storedScript
      ensures Kept(job, 0) && job.state == Running
      ensures job.stage == Directing || (job.stage == Extracting && job.bookId in {old(job.bookId), Some(bookId)})
      ensures end == Succeeded ==> DirectingAt(job.TakeSnapshot(), passages, 0) && storedJob == job.TakeSnapshot()
      ensures end == Succeeded ==> |storedScript| == |passages| && ApprovedPrefix(storedScript, 0)
      ensures end == Succeeded ==> FitsBook(old(job.TakeSnapshot()), bookId)
      ensures Faultless() && FitsBook(old(job.TakeSnapshot()), bookId) ==> end == Succeeded
    {
      TotalIsPositive(|passages|);
      end := Operate();
      if end != Succeeded { return; }
      var attached := Attach(job, bookId);
      if !attached { return Threw; }
      end := SaveBook(seq(|passages|, _ => false));
      if end != Succeeded { return; }
      Begin(job, |passages|, Total(passages, |passages|));
      end := SaveMoved(job, 0);
    }

    /** Reading the book, or extracting it. */
    method Operate() returns (end: Ending)
      modifies this`writes
      ensures Faultless() ==> end == Succeeded
    {
      end := EndingOf(fate(writes));
      writes := writes + 1;
    }

    /** The end of `execute`: a pass that directed everything is always accepted for review. */
    method Close(job: AudiobookJob, script: seq<bool>) returns (end: Ending)
      requires Proper() && DirectingAt(job.TakeSnapshot(), passages, |passages|) && script == storedScript
      requires Kept(job, |passages|)
      modifies job, this`writes, this`storedJob, this`storedScript
      ensures Kept(job, |passages|) && storedScript == script
      ensures job.stage == Directing && (storedJob == old(storedJob) || storedJob.stage == Directing)
      ensures end == Threw ==> job.state == Running || LostReview(job)
      ensures end == Succeeded ==> storedJob == job.TakeSnapshot() && job.state == AwaitingReview
      ensures Faultless() ==> end == Succeeded
    {
      end := SaveBook(script);
      if end != Succeeded { return; }
      Await(job);
      end := SaveMoved(job, |passages|);
    }

    /** Directs the rest of the book and hands it to review. */
    method CarryThrough(job: AudiobookJob, ghost k: nat, calls: nat -> DirectorCall) returns (end: Ending, ghost pass: Pass)
      requires Proper() && OnPass(job, storedScript, k)
      modifies job, this`writes, this`storedJob, this`storedScript, this`directed
      ensures GoodPass(pass, k, |passages|) && Kept(job, pass.persisted)
      ensures job.stage == Directing && storedJob.stage == Directing
      ensures end == Threw ==> job.state == Running || LostReview(job)
      ensures directed == old(directed) + Range(k, pass.directedTo)
      ensures end == Succeeded ==> pass.persisted == |passages| && storedJob == job.TakeSnapshot() && job.state == AwaitingReview
      ensures AllWork(calls) ==> end == Succeeded
    {
      end, pass := DirectBook(job, k, calls);
      if end == Succeeded {
        end := Close(job, storedScript);
      }
    }

    /** Directs a freshly extracted book through to review, or fails. */
    method FreshPass(job: AudiobookJob, command: Command) returns (end: Ending, ghost pass: Pass, ghost closing: Option<nat>)
      requires Proper() && Kept(job, 0) && job.state == Running && job.stage == Extracting
      modifies job, this`writes, this`storedJob, this`storedScript, this`directed
      ensures GoodPass(pass, 0, |passages|) && Kept(job, pass.persisted)
      ensures directed == old(directed) + Range(0, pass.directedTo)
      ensures end == Succeeded ==> pass.persisted == |passages| && storedJob.state == AwaitingReview
      ensures end == Succeeded ==> FitsBook(old(job.TakeSnapshot()), command.bookId)
      ensures AllWork(command.calls) && FitsBook(old(job.TakeSnapshot()), command.bookId) ==> end == Succeeded
      ensures if closing.Some? then Recorded(job.TakeSnapshot(), command) && Settles(job, end, closing.value)
              else end == Threw && HasCause(command) ==> LostReview(job)
      ensures job.stage == Extracting ==> job.bookId in {old(job.bookId), Some(command.bookId)}
    {
      pass, closing := Pass(0, 0), None;
      assert Range(0, 0) == [];
      end := BeginFresh(job, command.bookId);
      if end == Succeeded {
        end, pass := CarryThrough(job, 0, command.calls);
      }
      if end == Threw && job.state == Running {
        end, closing := GiveUp(job, pass.persisted, command);
      }
    }

    /** Resumes an interrupted direction and carries it through to review, or fails again. */
    method ResumePass(job: AudiobookJob, ghost k: nat, command: Command)
      returns (end: Ending, ghost pass: Pass, ghost closing: Option<nat>)
      requires Proper() && Kept(job, k)
      requires job.state in {Running, Failed, Abandoned} && job.stage == Directing && job.bookId.Some?
      modifies job, this`writes, this`storedJob, this`storedScript, this`directed
      ensures GoodPass(pass, k, |passages|) && Kept(job, pass.persisted)
      ensures directed == old(directed) + Range(k, pass.directedTo)
      ensures storedJob == old(storedJob) || storedJob.stage == Directing
      ensures end == Succeeded ==> pass.persisted == |passages| && storedJob == job.TakeSnapshot() && job.state == AwaitingReview
      ensures AllWork(command.calls) ==> end == Succeeded
      ensures LeavesNoneRunning(job, old(storedJob), end, closing, command) && (closing.Some? ==> job.stage == Directing)
    {
      pass, closing := Pass(k, k), None;
      assert Range(k, k) == [];
      end := Rebase(job, k);
      if end != Succeeded { return; }
      end, pass := CarryThrough(job, k, command.calls);
      if end == Threw && job.state == Running {
        end, closing := GiveUp(job, pass.persisted, command);
      }
    }

    // -------------------------------------------------------------- the command

    /** A job without a command takes this one; a job of another command refuses it. */
    method Identify(job: AudiobookJob, ghost k: nat, identity: string) returns (ok: bool)
      requires Kept(job, k) && Regular(job.TakeSnapshot()) && IsNormalSha256(identity)
      modifies job
      ensures Kept(job, k) && Regular(job.TakeSnapshot())
      ensures ok <==> old(job.commandIdentity) in {None, Some(identity)}
      ensures ok ==> job.commandIdentity == Some(identity)
      ensures job.state == old(job.state) && job.stage == old(job.stage) && job.bookId == old(job.bookId)
    {
      ok := job.commandIdentity in {None, Some(identity)};
      if job.commandIdentity.None? {
        ghost var before := job.TakeSnapshot();
        var bound := job.BindCommand(identity);
        MadeKeeps(accepts, before, Call.BindCommand(identity), bound, job.TakeSnapshot());
      }
    }

    /** Starts a new job, or takes one over whose extraction was interrupted; extraction has no checkpoint. */
    method RestartExtraction(job: AudiobookJob) returns (end: Ending)
      requires Kept(job, 0) && job.stage == Extracting && job.commandIdentity.Some?
      requires job.state in {Pending, Failed, Abandoned}
      modifies job, this`writes, this`storedJob
      ensures Kept(job, 0) && (Faultless() ==> end == Succeeded)
      ensures job.state == Running && job.stage == Extracting && job.bookId == old(job.bookId)
      ensures end != Succeeded ==> storedJob == old(storedJob)
    {
      ghost var before := job.TakeSnapshot();
      if job.state == Pending {
        var started := job.Start();
        MadeKeeps(accepts, before, Call.StartJob, started, job.TakeSnapshot());
      } else {
        var resumed := job.ResumeFailedStage(AtExtracting);
        MadeKeeps(accepts, before, Call.ResumeFailedStage(AtExtracting), resumed, job.TakeSnapshot());
      }
      end := SaveMoved(job, 0);
    }

    /** A running job was left by a process that died: with consent it is abandoned first. */
    method Recover(job: AudiobookJob, ghost k: nat, recover: bool) returns (end: Ending)
      requires Kept(job, k) && Regular(job.TakeSnapshot())
      modifies job, this`writes, this`storedJob
      ensures Kept(job, k) && Regular(job.TakeSnapshot()) && job.commandIdentity == old(job.commandIdentity)
      ensures job.stage == old(job.stage) && job.bookId == old(job.bookId)
      ensures end == Succeeded ==> job.state == (if old(job.state) == Running then Abandoned else old(job.state))
      ensures end == Succeeded ==> (old(job.state) in {Running, Abandoned} ==> recover)
      ensures Faultless() && (old(job.state) in {Running, Abandoned} ==> recover) ==> end == Succeeded
      ensures storedJob == old(storedJob) || storedJob.state == Abandoned
    {
      end := Succeeded;
      if job.state in {Running, Abandoned} && !recover { return Threw; }
      if job.state == Running {
        Abandon(job);
        end := SaveMoved(job, k);
      }
    }

    /**
     * One command: a directed job and a job of another stage are refused, and so is a crashed one without
     * consent; an interrupted direction is resumed, and anything before it starts at extraction.
     */
    method Execute(job: AudiobookJob, ghost k: nat, command: Command)
      returns (end: Ending, ghost pass: Pass, ghost closing: Option<nat>)
      requires Proper() && Kept(job, k) && Regular(job.TakeSnapshot()) && IsNormalSha256(command.identity)
      modifies job, this`writes, this`storedJob, this`storedScript, this`directed
      ensures GoodPass(pass, k, |passages|) && Kept(job, pass.persisted)
      ensures directed == old(directed) + Range(k, pass.directedTo)
      ensures end == Succeeded ==> pass.persisted == |passages| && storedJob.state == AwaitingReview
      ensures end == Succeeded ==> Serves(old(job.TakeSnapshot()), command)
      ensures AllWork(command.calls) && Serves(old(job.TakeSnapshot()), command) ==> end == Succeeded
      ensures LeavesNoneRunning(job, old(storedJob), end, closing, command)
      ensures closing.Some? ==> job.stage == Directing || BookStaysOpen(old(job.TakeSnapshot()), job.TakeSnapshot(), command)
    {
      pass, closing := Pass(k, k), None;
      assert Range(k, k) == [];
      if job.state in {Completed, AwaitingReview} { return Threw, pass, None; }
      var mine := Identify(job, k, command.identity);
      if !mine { return Threw, pass, None; }
      end := Recover(job, k, command.recover);
      if end == Succeeded {
        end, pass, closing := Continue(job, k, command);
      }
    }

    /** The stage an identified and recovered job goes on from. */
    method Continue(job: AudiobookJob, ghost k: nat, command: Command)
      returns (end: Ending, ghost pass: Pass, ghost closing: Option<nat>)
      requires Proper() && Kept(job, k) && Regular(job.TakeSnapshot()) && job.commandIdentity.Some?
      requires job.state in {Pending, Failed, Abandoned}
      modifies job, this`writes, this`storedJob, this`storedScript, this`directed
      ensures GoodPass(pass, k, |passages|) && Kept(job, pass.persisted)
      ensures directed == old(directed) + Range(k, pass.directedTo)
      ensures end == Succeeded ==> pass.persisted == |passages| && storedJob.state == AwaitingReview
      ensures end == Succeeded ==> GoesOn(old(job.TakeSnapshot()), command.bookId)
      ensures AllWork(command.calls) && GoesOn(old(job.TakeSnapshot()), command.bookId) ==> end == Succeeded
      ensures LeavesNoneRunning(job, old(storedJob), end, closing, command)
      ensures closing.Some? ==> job.stage == Directing || BookStaysOpen(old(job.TakeSnapshot()), job.TakeSnapshot(), command)
    {
      pass, closing := Pass(k, k), None;
      assert Range(k, k) == [];
      if job.stage == Directing {
        end := Operate();
        if end == Succeeded {
          end, pass, closing := ResumePass(job, k, command);
        }
      } else if job.stage == Extracting {
        end := RestartExtraction(job);
        if end == Succeeded {
          end, pass, closing := FreshPass(job, command);
        }
      } else {
        end := Threw;
      }
    }
  }

  /** One direction command; `aborted` is whether its signal fired when something throws. */
  datatype Command = Command(identity: string, bookId: string, recover: bool, aborted: bool, calls: nat -> DirectorCall,
                             problem: string)

  /** A failure can be recorded: the command was aborted, or the problem has a message. */
  predicate HasCause(command: Command) {
    command.aborted || !Blank(command.problem)
  }

  predicate Recorded(s: Snapshot, command: Command) {
    && s.stage in {Extracting, Directing}
    && if command.aborted then s.state == Abandoned else s.state == Failed && s.error == Some(command.problem)
  }

  /** No other book got attached. */
  predicate BookStaysOpen(before: Snapshot, after: Snapshot, command: Command) {
    after.stage == Extracting && before.stage == Extracting && after.bookId in {before.bookId, Some(command.bookId)}
  }

  predicate FitsBook(s: Snapshot, bookId: string) {
    !Blank(bookId) && s.bookId in {None, Some(bookId)}
  }

  /** What a command finds: an approved prefix of `k` chapters, complete in length while directing, and none before. */
  ghost predicate Keeps(s: Snapshot, script: seq<bool>, k: nat, total: nat) {
    && ApprovedPrefix(script, k) && (script == [] || |script| == total)
    && (s.stage == Directing ==> |script| == total) && (s.stage == Extracting ==> k == 0)
  }

  /** What every readable job carries that a direction may start from. */
  predicate Regular(s: Snapshot) {
    && (s.state == Pending ==> s.stage == Extracting) && (s.state != Pending ==> s.commandIdentity.Some?)
    && (s.stage == Directing ==> s.bookId.Some?)
    && (s.commandIdentity.Some? ==> IsSha256(s.commandIdentity.value))
  }

  lemma ReadableIsRegular(s: Snapshot)
    requires Sound(s)
    ensures Regular(s)
  {
  }

  predicate GoesOn(s: Snapshot, bookId: string) {
    s.stage == Directing || (s.stage == Extracting && FitsBook(s, bookId))
  }

  /** The jobs a command can go through for: its own, new or interrupted before rendering, with consent after a crash. */
  predicate Serves(s: Snapshot, command: Command) {
    && s.commandIdentity in {None, Some(command.identity)}
    && (s.state in {Pending, Failed} || (s.state in {Running, Abandoned} && command.recover))
    && GoesOn(s, command.bookId)
  }

  /**
   * A pass leaves a longer persisted prefix behind and directs the chapters from the old prefix on,
   * each once, up to the last one it persisted or the one after it.
   */
  datatype Pass = Pass(persisted: nat, directedTo: nat)

  predicate GoodPass(pass: Pass, k: nat, total: nat) {
    k <= pass.persisted <= pass.directedTo <= pass.persisted + 1 && pass.directedTo <= total
  }

  /** Every write works, the process lives, and the director works on every chapter. */
  ghost predicate NothingFails(passages: seq<nat>, chapterIds: seq<string>, fate: nat -> Fate, calls: nat -> DirectorCall)
    requires |chapterIds| == |passages|
  {
    && (forall n: nat :: fate(n) == Works)
    && (forall i: nat | i < |passages| :: Cooperates(calls(i), chapterIds[i], passages[i]))
  }

  lemma ReadsBack(s: Snapshot)
    requires Sound(s)
    ensures Reconstituted(s) == Some(s) && Validates(s)
  {
    EverySnapshotRoundTrips(s, []);
  }

  /** A first direction, like a resumed one, saves only readable jobs and leaves an approved prefix behind. */
  method DirectReadably(passages: seq<nat>, chapterIds: seq<string>, stored: Snapshot, fate: nat -> Fate, command: Command)
    returns (end: Ending, saved: Snapshot, approved: seq<bool>, directed: seq<nat>, ghost pass: Pass)
    requires ProperBook(passages, chapterIds) && !Blank(command.bookId)
    requires Sound(stored) && stored.state == Running && stored.stage == Extracting
    requires stored.bookId in {None, Some(command.bookId)}
    ensures Sound(saved) && Reconstituted(saved) == Some(saved)
    ensures GoodPass(pass, 0, |passages|) && Keeps(saved, approved, pass.persisted, |passages|)
    ensures directed == Range(0, pass.directedTo)
    ensures end == Succeeded ==> saved.state == AwaitingReview && directed == Range(0, |passages|)
    ensures NothingFails(passages, chapterIds, fate, command.calls) ==> end == Succeeded
  {
    end, saved, approved, directed, pass := FreshRun(passages, chapterIds, stored, fate, command);
    ReadsBack(saved);
  }

  method FreshRun(passages: seq<nat>, chapterIds: seq<string>, stored: Snapshot, fate: nat -> Fate, command: Command)
    returns (end: Ending, saved: Snapshot, approved: seq<bool>, directed: seq<nat>, ghost pass: Pass)
    requires ProperBook(passages, chapterIds) && Sound(stored) && stored.state == Running && stored.stage == Extracting
    ensures Sound(saved) && GoodPass(pass, 0, |passages|) && Keeps(saved, approved, pass.persisted, |passages|)
    ensures directed == Range(0, pass.directedTo)
    ensures end == Succeeded ==> saved.state == AwaitingReview && pass.persisted == |passages|
    ensures NothingFails(passages, chapterIds, fate, command.calls) && FitsBook(stored, command.bookId) ==> end == Succeeded
  {
    SoundIsClosed();
    var workspace := new DirectionWorkspace(passages, chapterIds, fate, stored, (s: Snapshot) => Sound(s));
    ReadsBack(stored);
    var job := new AudiobookJob.Reconstitute(stored);
    ghost var closing;
    end, pass, closing := workspace.FreshPass(job, command);
    return end, workspace.storedJob, workspace.storedScript, workspace.directed, pass;
  }

  /**
   * Resuming any interrupted direction saves only jobs that the validator reads back unchanged and
   * leaves a longer approved prefix, whatever the director, the repository and the process do.
   */
  method ResumeReadably(passages: seq<nat>, chapterIds: seq<string>, stored: Snapshot, script: seq<bool>, ghost k: nat,
                        fate: nat -> Fate, command: Command)
    returns (end: Ending, saved: Snapshot, approved: seq<bool>, directed: seq<nat>, ghost pass: Pass)
    requires ProperBook(passages, chapterIds) && |script| == |passages| && ApprovedPrefix(script, k)
    requires Sound(stored) && stored.state in {Running, Failed, Abandoned} && stored.stage == Directing && stored.bookId.Some?
    ensures Sound(saved) && Reconstituted(saved) == Some(saved)
    ensures GoodPass(pass, k, |passages|) && Keeps(saved, approved, pass.persisted, |passages|) && saved.stage == Directing
    ensures end == Succeeded ==> saved.state == AwaitingReview && ApprovedPrefix(approved, |passages|)
    ensures NothingFails(passages, chapterIds, fate, command.calls) ==> end == Succeeded
    ensures |approved| == |passages| && forall i | 0 <= i < |passages| && script[i] :: approved[i]
    ensures directed == Range(k, pass.directedTo) && forall i | 0 <= i < |directed| :: directed[i] == k + i < |passages|
  {
    SoundIsClosed();
    var workspace := new DirectionWorkspace(passages, chapterIds, fate, stored, (s: Snapshot) => Sound(s));
    workspace.storedScript := script;
    ReadsBack(stored);
    var job := new AudiobookJob.Reconstitute(stored);
    ghost var closing;
    end, pass, closing := workspace.ResumePass(job, k, command);
    ReadsBack(workspace.storedJob);
    PrefixGrows(script, k, workspace.storedScript, pass.persisted);
    return end, workspace.storedJob, workspace.storedScript, workspace.directed, pass;
  }

  lemma PrefixGrows(before: seq<bool>, k: nat, after: seq<bool>, n: nat)
    requires ApprovedPrefix(before, k) && ApprovedPrefix(after, n) && k <= n && |before| <= |after|
    ensures forall i | 0 <= i < |before| && before[i] :: after[i]
  {
  }

  /** Any direction command on any readable job; it succeeds without faults exactly when it `Serves`. */
  method DirectOnce(passages: seq<nat>, chapterIds: seq<string>, stored: Snapshot, script: seq<bool>, ghost k: nat,
                    fate: nat -> Fate, command: Command)
    returns (end: Ending, record: Record, ghost pass: Pass, ghost closing: Option<nat>)
    requires ProperBook(passages, chapterIds) && IsNormalSha256(command.identity)
    requires Sound(stored) && Keeps(stored, script, k, |passages|)
    ensures Sound(record.saved) && Tells(record, k, pass, |passages|)
    ensures end == Succeeded ==> record.saved.state == AwaitingReview && pass.persisted == |passages| && Serves(stored, command)
    ensures NothingFails(passages, chapterIds, fate, command.calls) && Serves(stored, command) ==> end == Succeeded
    ensures closing.Some? && fate(closing.value) == Works ==>
              end == Threw && Recorded(record.saved, command) && (Serves(stored, command) ==> GoesOn(record.saved, command.bookId))
    ensures stored.commandIdentity == Some(command.identity) ==> record.saved.commandIdentity == Some(command.identity)
    ensures closing.None? && end == Threw && HasCause(command) && record.saved.state == Running ==>
              record.saved == stored || exists n: nat :: fate(n) == Faults
  {
    end, record, pass, closing := RunCommand(passages, chapterIds, stored, script, k, fate, command);
    ReadsBack(record.saved);
  }

  method RunCommand(passages: seq<nat>, chapterIds: seq<string>, stored: Snapshot, script: seq<bool>, ghost k: nat,
                    fate: nat -> Fate, command: Command)
    returns (end: Ending, record: Record, ghost pass: Pass, ghost closing: Option<nat>)
    requires ProperBook(passages, chapterIds) && IsNormalSha256(command.identity)
    requires Sound(stored) && Keeps(stored, script, k, |passages|)
    ensures Sound(record.saved) && GoodPass(pass, k, |passages|) && record.directed == Range(k, pass.directedTo)
    ensures Keeps(record.saved, record.approved, pass.persisted, |passages|)
    ensures end == Succeeded ==> record.saved.state == AwaitingReview && pass.persisted == |passages| && Serves(stored, command)
    ensures NothingFails(passages, chapterIds, fate, command.calls) && Serves(stored, command) ==> end == Succeeded
    ensures closing.Some? && fate(closing.value) == Works ==>
              end == Threw && Recorded(record.saved, command) && (Serves(stored, command) ==> GoesOn(record.saved, command.bookId))
    ensures stored.commandIdentity == Some(command.identity) ==> record.saved.commandIdentity == Some(command.identity)
    ensures closing.None? && end == Threw && HasCause(command) && record.saved.state == Running ==>
              record.saved == stored || exists n: nat :: fate(n) == Faults
  {
    ghost var fixed := stored.commandIdentity == Some(command.identity);
    IdentityStays(command.identity, fixed);
    var workspace := new DirectionWorkspace(passages, chapterIds, fate, stored,
      (s: Snapshot) => Sound(s) && (fixed ==> s.commandIdentity == Some(command.identity)));
    workspace.storedScript := script;
    ReadsBack(stored);
    var job := new AudiobookJob.Reconstitute(stored);
    ReadableIsRegular(stored);
    end, pass, closing := workspace.Execute(job, k, command);
    record := Record(workspace.storedJob, workspace.storedScript, workspace.directed);
  }

  lemma CallKeepsIdentity(s: Snapshot, call: Call)
    requires Apply(s, call).Some? && s.commandIdentity.Some?
    ensures Apply(s, call).value.commandIdentity == s.commandIdentity
  {
  }

  /** A job that has a command keeps it. */
  lemma IdentityStays(identity: string, fixed: bool)
    ensures Closed((s: Snapshot) => Sound(s) && (fixed ==> s.commandIdentity == Some(identity)))
  {
    forall s: Snapshot, call: Call | Sound(s) && Disciplined(s, call) && Apply(s, call).Some?
      ensures Sound(Apply(s, call).value)
      ensures s.commandIdentity.Some? ==> Apply(s, call).value.commandIdentity == s.commandIdentity
    {
      CallKeepsSound(s, call);
      if s.commandIdentity.Some? { CallKeepsIdentity(s, call); }
    }
  }

  /**
   * After a failure was recorded, whatever it was, the same command succeeds without consent once nothing
   * fails any more.
   */
  method RetryAfterFailure(passages: seq<nat>, chapterIds: seq<string>, stored: Snapshot, script: seq<bool>, ghost k: nat,
                           fate: nat -> Fate, command: Command, calls: nat -> DirectorCall)
    returns (first: Ending, failed: Snapshot, second: Ending, ghost closing: Option<nat>)
    requires ProperBook(passages, chapterIds) && IsNormalSha256(command.identity)
    requires Sound(stored) && Keeps(stored, script, k, |passages|)
    requires stored.commandIdentity == Some(command.identity) && Serves(stored, command)
    ensures closing.Some? && fate(closing.value) == Works ==> first == Threw && Recorded(failed, command)
    ensures closing.Some? && fate(closing.value) == Works && !command.aborted ==>
      NothingFails(passages, chapterIds, (n: nat) => Works, calls) ==> second == Succeeded
  {
    var record;
    ghost var pass;
    first, record, pass, closing := DirectOnce(passages, chapterIds, stored, script, k, fate, command);
    failed := record.saved;
    var again;
    ghost var pass', closing';
    second, again, pass', closing' := DirectOnce(passages, chapterIds, failed, record.approved, pass.persisted,
                                                 (n: nat) => Works, command.(recover := false, calls := calls));
  }

  // ---------------------------------------------------------------- every sequence of passes

  /** Passes one after the other, each starting from what the one before it persisted. */
  predicate ArePasses(k: nat, passes: seq<Pass>, total: nat)
    decreases |passes|
  {
    passes == [] || (GoodPass(passes[0], k, total) && ArePasses(passes[0].persisted, passes[1..], total))
  }

  predicate DirectsChapter(k: nat, pass: Pass, chapter: nat) {
    k <= chapter < pass.directedTo
  }

  function StartOf(k: nat, passes: seq<Pass>, n: nat): nat
    requires n < |passes|
  {
    if n == 0 then k else passes[n - 1].persisted
  }

  /** Over all passes a chapter persisted by one is never directed by a later one. */
  lemma {:induction false} NeverDirectedAgain(k: nat, passes: seq<Pass>, total: nat, m: nat, n: nat, chapter: nat)
    requires ArePasses(k, passes, total) && m < n < |passes| && chapter < passes[m].persisted
    ensures !DirectsChapter(StartOf(k, passes, n), passes[n], chapter)
    decreases |passes|
  {
    if m > 0 {
      NeverDirectedAgain(passes[0].persisted, passes[1..], total, m - 1, n - 1, chapter);
      assert StartOf(passes[0].persisted, passes[1..], n - 1) == StartOf(k, passes, n);
    } else {
      PersistedGrows(passes[0].persisted, passes[1..], total, n - 1);
      assert StartOf(passes[0].persisted, passes[1..], n - 1) == StartOf(k, passes, n);
    }
  }

  lemma {:induction false} PersistedGrows(k: nat, passes: seq<Pass>, total: nat, n: nat)
    requires ArePasses(k, passes, total) && n < |passes|
    ensures k <= StartOf(k, passes, n) <= passes[n].persisted <= total
    decreases |passes|
  {
    if n > 0 {
      PersistedGrows(passes[0].persisted, passes[1..], total, n - 1);
      assert StartOf(passes[0].persisted, passes[1..], n - 1) == StartOf(k, passes, n);
    }
  }

  // ---------------------------------------------------------------- every sequence of commands

  /** What a command left stored, and the chapters it handed to the director. */
  datatype Record = Record(saved: Snapshot, approved: seq<bool>, directed: seq<nat>)

  /** A command that found `k` approved chapters left a readable job and a longer approved prefix. */
  ghost predicate Tells(record: Record, k: nat, pass: Pass, total: nat) {
    && GoodPass(pass, k, total) && record.directed == Range(k, pass.directedTo)
    && Reconstituted(record.saved) == Some(record.saved) && Keeps(record.saved, record.approved, pass.persisted, total)
  }

  ghost predicate AllTell(records: seq<Record>, k: nat, passes: seq<Pass>, total: nat) {
    && |records| == |passes|
    && forall n | 0 <= n < |passes| :: Tells(records[n], StartOf(k, passes, n), passes[n], total)
  }

  lemma {:induction false} OneMorePass(k: nat, passes: seq<Pass>, pass: Pass, total: nat)
    requires ArePasses(k, passes, total)
    requires GoodPass(pass, EndOf(k, passes), total)
    ensures ArePasses(k, passes + [pass], total)
    decreases |passes|
  {
    if passes != [] {
      var rest := passes[1..];
      OneMorePass(passes[0].persisted, rest, pass, total);
      assert (passes + [pass])[1..] == rest + [pass];
    }
  }

  /** How many chapters are persisted after the passes. */
  function EndOf(k: nat, passes: seq<Pass>): nat {
    if passes == [] then k else passes[|passes| - 1].persisted
  }

  lemma TellOneMore(records: seq<Record>, k: nat, passes: seq<Pass>, total: nat, record: Record, pass: Pass)
    requires AllTell(records, k, passes, total) && Tells(record, EndOf(k, passes), pass, total)
    ensures AllTell(records + [record], k, passes + [pass], total)
  {
    var all, more := records + [record], passes + [pass];
    forall n | 0 <= n < |more| ensures Tells(all[n], StartOf(k, more, n), more[n], total) {
      StartsAsBefore(k, passes, pass, n);
      assert n < |passes| ==> all[n] == records[n] && Tells(records[n], StartOf(k, passes, n), passes[n], total);
    }
  }

  lemma StartsAsBefore(k: nat, passes: seq<Pass>, pass: Pass, n: nat)
    requires n <= |passes|
    ensures StartOf(k, passes + [pass], n) == if n < |passes| then StartOf(k, passes, n) else EndOf(k, passes)
  {
  }

  /** Over any commands a chapter once stored as approved stays approved and is never handed to the director again. */
  lemma PersistedIsFinal(records: seq<Record>, k: nat, passes: seq<Pass>, total: nat, m: nat, n: nat, chapter: nat)
    requires AllTell(records, k, passes, total) && ArePasses(k, passes, total) && m < n < |records|
    requires Approved(records[m], chapter)
    ensures chapter !in records[n].directed && Approved(records[n], chapter)
  {
    assert Tells(records[m], StartOf(k, passes, m), passes[m], total);
    assert Tells(records[n], StartOf(k, passes, n), passes[n], total);
    NeverDirectedAgain(k, passes, total, m, n, chapter);
    PersistedOnlyGrows(k, passes, total, m, n);
  }

  lemma {:induction false} PersistedOnlyGrows(k: nat, passes: seq<Pass>, total: nat, m: nat, n: nat)
    requires ArePasses(k, passes, total) && m < n < |passes|
    ensures passes[m].persisted <= StartOf(k, passes, n) <= passes[n].persisted
    decreases |passes|
  {
    assert StartOf(passes[0].persisted, passes[1..], n - 1) == StartOf(k, passes, n);
    if m > 0 {
      PersistedOnlyGrows(passes[0].persisted, passes[1..], total, m - 1, n - 1);
    } else {
      PersistedGrows(passes[0].persisted, passes[1..], total, n - 1);
    }
  }

  /**
   * Over any sequence of direction commands on one job, a first one and any resumes with any faults and
   * deaths: every saved job reads back unchanged, every stored script is an approved prefix that only
   * grows, and no chapter once persisted is handed to the director again.
   */
  method DirectRepeatedly(passages: seq<nat>, chapterIds: seq<string>, stored: Snapshot, script: seq<bool>, ghost k: nat,
                          commands: seq<Command>, fates: nat -> nat -> Fate)
    returns (records: seq<Record>, ghost passes: seq<Pass>)
    requires ProperBook(passages, chapterIds) && Sound(stored) && Keeps(stored, script, k, |passages|)
    requires forall n | 0 <= n < |commands| :: IsNormalSha256(commands[n].identity)
    ensures |records| == |commands| && ArePasses(k, passes, |passages|) && AllTell(records, k, passes, |passages|)
    ensures NoneRepeated(records)
  {
    records, passes := [], [];
    var job, approved := stored, script;
    for c := 0 to |commands|
      invariant |records| == c && ArePasses(k, passes, |passages|) && AllTell(records, k, passes, |passages|)
      invariant Sound(job) && Keeps(job, approved, EndOf(k, passes), |passages|)
    {
      ghost var found := EndOf(k, passes);
      var end, record;
      ghost var pass;
      ghost var closing;
      end, record, pass, closing := DirectOnce(passages, chapterIds, job, approved, found, fates(c), commands[c]);
      OneMorePass(k, passes, pass, |passages|);
      TellOneMore(records, k, passes, |passages|, record, pass);
      records, passes, job, approved := records + [record], passes + [pass], record.saved, record.approved;
    }
    PersistedAreFinal(records, k, passes, |passages|);
  }

  /** What one command stored as approved is still approved after the other, which directed none of it. */
  ghost predicate StaysFinal(before: Record, after: Record) {
    forall chapter: nat | Approved(before, chapter) :: chapter !in after.directed && Approved(after, chapter)
  }

  ghost predicate NoneRepeated(records: seq<Record>) {
    forall m, n | 0 <= m < n < |records| :: StaysFinal(records[m], records[n])
  }

  lemma PersistedStays(records: seq<Record>, k: nat, passes: seq<Pass>, total: nat, m: nat, n: nat)
    requires AllTell(records, k, passes, total) && ArePasses(k, passes, total) && m < n < |records|
    ensures StaysFinal(records[m], records[n])
  {
    forall chapter: nat | Approved(records[m], chapter) ensures chapter !in records[n].directed && Approved(records[n], chapter) {
      PersistedIsFinal(records, k, passes, total, m, n, chapter);
    }
  }

  lemma PersistedAreFinal(records: seq<Record>, k: nat, passes: seq<Pass>, total: nat)
    requires AllTell(records, k, passes, total) && ArePasses(k, passes, total)
    ensures NoneRepeated(records)
  {
    forall m: nat, n: nat | m < n < |records| ensures StaysFinal(records[m], records[n]) {
      PersistedStays(records, k, passes, total, m, n);
    }
  }

  predicate Approved(record: Record, chapter: nat) {
    chapter < |record.approved| && record.approved[chapter]
  }

  /** A new job starts such a sequence. */
  lemma NewJobKeeps(id: string, total: nat)
    requires !Blank(id)
    ensures Sound(NewJob(id)) && Keeps(NewJob(id), [], 0, total)
  {
    NewJobIsSound(id);
  }
}
