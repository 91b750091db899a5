/**
 * Who may open a finished output while fallback decisions keep changing
 * (packages/application/src/completed-output.ts and render-audiobook.ts).
 *
 * One render worker, any reviewers and any consumers of one book interleave. Every step below is one
 * atomic block of one of them, between two awaits. The per-book section of `CatalogAccess` is the
 * field `section`.
 */
module CompletedOutput {
  import opened Wrappers
  import opened FallbackApprovals

  /** A job row, or a job object loaded from one. */
  datatype Job = Job(state: JobState, catalogRevision: Option<nat>)

  /** A directed segment of the script; `fallback` is the reason it uses the fallback voice, if it does. */
  datatype Segment = Segment(id: SegmentId, sourceText: string, speakerId: Option<string>, delivery: string,
                             voiceProfileId: string, fallback: Option<Reason>)

  /** Everything that decides how a segment sounds, with the decision that allowed a fallback voice. */
  datatype Identity = Identity(segmentId: SegmentId, sourceText: string, speakerId: Option<string>, delivery: string,
                               voiceProfileId: string, approval: Option<Approval>)

  /** A durable recording, filed under its segment and the identity it was rendered under. */
  datatype Audio = Audio(segmentId: SegmentId, identity: Identity, content: nat)

  /** A persisted output: the claimed revision, the script, and the recordings assembled for it. */
  datatype Output = Output(claim: nat, script: seq<Segment>, pieces: seq<Audio>)

  /** What the render gate read in one go. */
  datatype Gate = Gate(revision: nat, script: seq<Segment>, approvals: map<SegmentId, Approval>)

  datatype Renderer =
    | Resting
    | Loaded(job: Job)
    | Gated(gate: Gate)
    | Failing
    | Planned(gate: Gate, found: seq<Option<Audio>>)
    | Claimed(gate: Gate, found: seq<Option<Audio>>)
    | Rendering(gate: Gate, found: seq<Option<Audio>>, audio: map<SegmentId, Audio>, done: nat)
    | Assembling(gate: Gate, pieces: seq<Audio>)
    | Committing(gate: Gate, pieces: seq<Audio>)

  datatype Reviewer =
    | Away
    | Opened(job: Job)
    | Entered(job: Job)
    | Deciding
    | Rechecking(latest: Job)

  datatype Consumer =
    | Idle
    | Asking(job: Job)
    | Checked(job: Job)
    | Inside(job: Job)
    | Read(job: Job, revision: nat)
    | Found(job: Job, revision: nat, output: Option<Output>)
    | Consuming(job: Job, revision: nat, output: Option<Output>)

  datatype Holder = ByReviewer(reviewer: nat) | ByConsumer(consumer: nat)

  /** `history` remembers the catalog of every revision and `lastClaim` the newest committed claim. */
  datatype World = World(
    catalog: Catalog,
    job: Job,
    output: Option<Output>,
    artifacts: set<Audio>,
    section: Option<Holder>,
    renderer: Renderer,
    reviewers: seq<Reviewer>,
    consumers: seq<Consumer>,
    history: map<nat, Catalog>,
    lastClaim: nat)

  // ---------------------------------------------------------------- job rows

  /** Saving a job that is not completed replaces the row and drops its output. */
  function SaveJob(w: World, state: JobState): World
    requires state != Completed
  {
    w.(job := Job(state, None), output := None)
  }

  /** The completed row and its output are saved together. */
  function SaveCompleted(w: World, gate: Gate, pieces: seq<Audio>): World {
    w.(job := Job(Completed, Some(gate.revision)), output := Some(Output(gate.revision, gate.script, pieces)),
       lastClaim := gate.revision)
  }

  // ---------------------------------------------------------------- the script and its plan

  function SubjectOf(s: Segment): Subject
    requires s.fallback.Some?
  {
    Subject(s.id, s.speakerId, s.fallback.value, s.voiceProfileId, s.sourceText)
  }

  /** The fallback segments of a script, in book order. */
  function SubjectsOf(script: seq<Segment>): seq<Subject> {
    if script == [] then [] else
      (if script[0].fallback.Some? then [SubjectOf(script[0])] else []) + SubjectsOf(script[1..])
  }

  ghost predicate UniqueIds(script: seq<Segment>) {
    forall i, j | 0 <= i < j < |script| :: script[i].id != script[j].id
  }

  function IdentityOf(s: Segment, approval: Option<Approval>): Identity {
    Identity(s.id, s.sourceText, s.speakerId, s.delivery, s.voiceProfileId, approval)
  }

  function Filed<T>(records: map<SegmentId, T>, id: SegmentId): Option<T> {
    if id in records then Some(records[id]) else None
  }

  /** The recording of the segment under the identity its gate plans. */
  predicate Fits(audio: Audio, gate: Gate, s: Segment) {
    audio.segmentId == s.id && audio.identity == IdentityOf(s, Filed(gate.approvals, s.id))
  }

  // ---------------------------------------------------------------- the render worker

  /** `found` are the durable recordings the plan can reuse; `made` is whatever the speech engine returned. */
  datatype RenderStep =
    | LoadJob
    | ReopenStaleOutput
    | AbandonRunning
    | ReadGate(script: seq<Segment>)
    | BreakPlanning
    | Plan(found: seq<Option<Audio>>)
    | ReadGateAgain(script: seq<Segment>)
    | SaveRunning
    | RenderSegment(made: Audio)
    | CheckBeforeAssembly
    | CheckBeforeCommit
    | Commit
    | FailRender(aborted: bool)
    | StopRender

  function GateOf(c: Catalog, script: seq<Segment>): Gate {
    Gate(c.revision, script, ResolvedOf(c, SubjectsOf(script)))
  }

  ghost predicate Opens(c: Catalog, script: seq<Segment>) {
    UniqueIds(script) && MissingOf(c, SubjectsOf(script)) == []
  }

  predicate Busy(r: Renderer) {
    r.Failing? || r.Rendering? || r.Assembling? || r.Committing?
  }

  ghost predicate RenderMay(w: World, step: RenderStep) {
    match step
    case LoadJob => w.renderer.Resting?
    case ReopenStaleOutput => w.renderer.Loaded? && w.renderer.job.state == Completed
    case AbandonRunning => w.renderer.Loaded? && w.renderer.job.state == Running
    case ReadGate(script) =>
      w.renderer.Loaded? && w.renderer.job.state in {AwaitingReview, Failed, Abandoned} && Opens(w.catalog, script)
    case BreakPlanning => w.renderer.Gated?
    case Plan(found) =>
      && w.renderer.Gated? && |found| == |w.renderer.gate.script|
      && forall i | 0 <= i < |found| && found[i].Some? ::
           found[i].value in w.artifacts && Fits(found[i].value, w.renderer.gate, w.renderer.gate.script[i])
    case ReadGateAgain(script) =>
      && w.renderer.Planned? && Opens(w.catalog, script)
      && script == w.renderer.gate.script && w.catalog.revision == w.renderer.gate.revision
    case SaveRunning => w.renderer.Claimed?
    case RenderSegment(made) =>
      var r := w.renderer;
      && r.Rendering? && r.done < |r.gate.script| && r.done < |r.found|
      && (r.found[r.done].Some? || Fits(made, r.gate, r.gate.script[r.done]))
    case CheckBeforeAssembly =>
      && w.renderer.Rendering? && w.renderer.done == |w.renderer.gate.script|
      && (forall i | 0 <= i < |w.renderer.gate.script| :: w.renderer.gate.script[i].id in w.renderer.audio)
      && w.catalog.revision == w.renderer.gate.revision
    case CheckBeforeCommit => w.renderer.Assembling? && w.catalog.revision == w.renderer.gate.revision
    case Commit => w.renderer.Committing?
    case FailRender(_) => Busy(w.renderer)
    case StopRender => true
  }

  /** Takes the reusable recording, or files the new one and counts it. */
  function RenderedOne(w: World, made: Audio): World
    requires RenderMay(w, RenderSegment(made))
  {
    var r := w.renderer;
    var id := r.gate.script[r.done].id;
    if r.found[r.done].Some? then
      w.(renderer := r.(audio := r.audio[id := r.found[r.done].value], done := r.done + 1))
    else
      SaveJob(w, Running).(artifacts := w.artifacts + {made}, renderer := r.(audio := r.audio[id := made], done := r.done + 1))
  }

  /** The recordings handed to the assembler: one per script segment, looked up by its ID. */
  function PiecesOf(script: seq<Segment>, audio: map<SegmentId, Audio>): (pieces: seq<Audio>)
    requires forall i | 0 <= i < |script| :: script[i].id in audio
    ensures |pieces| == |script| && forall i | 0 <= i < |script| :: pieces[i] == audio[script[i].id]
  {
    seq(|script|, i requires 0 <= i < |script| => audio[script[i].id])
  }

  function RenderNext(w: World, step: RenderStep): World
    requires RenderMay(w, step)
  {
    match step
    case LoadJob => w.(renderer := Loaded(w.job))
    case ReopenStaleOutput => SaveJob(w, AwaitingReview).(renderer := Loaded(Job(AwaitingReview, None)))
    case AbandonRunning => SaveJob(w, Abandoned).(renderer := Loaded(Job(Abandoned, None)))
    case ReadGate(script) => w.(renderer := Gated(GateOf(w.catalog, script)))
    case BreakPlanning => SaveJob(w, Running).(renderer := Failing)
    case Plan(found) => w.(renderer := Planned(w.renderer.gate, found))
    case ReadGateAgain(_) => w.(renderer := Claimed(w.renderer.gate, w.renderer.found))
    case SaveRunning => SaveJob(w, Running).(renderer := Rendering(w.renderer.gate, w.renderer.found, map[], 0))
    case RenderSegment(made) => RenderedOne(w, made)
    case CheckBeforeAssembly =>
      SaveJob(w, Running).(renderer := Assembling(w.renderer.gate, PiecesOf(w.renderer.gate.script, w.renderer.audio)))
    case CheckBeforeCommit => w.(renderer := Committing(w.renderer.gate, w.renderer.pieces))
    case Commit => SaveCompleted(w, w.renderer.gate, w.renderer.pieces).(renderer := Resting)
    case FailRender(aborted) => SaveJob(w, if aborted then Abandoned else Failed).(renderer := Resting)
    case StopRender => w.(renderer := Resting)
  }

  // ---------------------------------------------------------------- reviewers

  /** `StartReconcile` is a reconciliation: it enters the section without loading the job. */
  datatype ReviewStep =
    | OpenJob
    | Enter
    | StartReconcile
    | Refuse
    | ReopenBeforeWrite
    | WriteCatalog(write: Write)
    | Reread
    | ReopenAfterWrite
    | Leave

  predicate ReviewMay(w: World, k: nat, step: ReviewStep) {
    k < |w.reviewers| &&
    var me := w.reviewers[k];
    match step
    case OpenJob => me.Away?
    case Enter => me.Opened? && w.section.None?
    case StartReconcile => me.Away? && w.section.None?
    case Refuse => me.Entered? && me.job.state == Running
    case ReopenBeforeWrite => me.Entered? && me.job.state != Running
    case WriteCatalog(_) => me.Deciding?
    case Reread => me.Deciding?
    case ReopenAfterWrite => me.Rechecking?
    case Leave => me.Deciding? || me.Entered?
  }

  function SetReviewer(w: World, k: nat, reviewer: Reviewer): World
    requires k < |w.reviewers|
  {
    w.(reviewers := w.reviewers[k := reviewer])
  }

  function ReviewNext(w: World, k: nat, step: ReviewStep): World
    requires ReviewMay(w, k, step)
  {
    var me := w.reviewers[k];
    match step
    case OpenJob => SetReviewer(w, k, Opened(w.job))
    case Enter => SetReviewer(w, k, Entered(me.job)).(section := Some(ByReviewer(k)))
    case StartReconcile => SetReviewer(w, k, Deciding).(section := Some(ByReviewer(k)))
    case Refuse => SetReviewer(w, k, Away).(section := None)
    case ReopenBeforeWrite => SetReviewer(if me.job.state == Completed then SaveJob(w, AwaitingReview) else w, k, Deciding)
    case WriteCatalog(write) =>
      var next := Written(w.catalog, write);
      w.(catalog := next, history := w.history[next.revision := next])
    case Reread => SetReviewer(w, k, Rechecking(w.job))
    case ReopenAfterWrite =>
      SetReviewer(if me.latest.state == Completed then SaveJob(w, AwaitingReview) else w, k, Away).(section := None)
    case Leave => SetReviewer(w, k, Away).(section := None)
  }

  // ---------------------------------------------------------------- consumers

  datatype ConsumeStep =
    | Ask
    | Preliminary
    | Queue
    | ReadRevision
    | FindOutput
    | Consume
    | FinishConsuming
    | Deny

  /** `LiveCatalogRead.mint`: the only way to an output. */
  predicate Mints(job: Job, liveRevision: nat, output: Option<Output>) {
    job.state == Completed && job.catalogRevision == Some(liveRevision) && output.Some?
  }

  predicate ConsumeMay(w: World, k: nat, step: ConsumeStep) {
    k < |w.consumers| &&
    var me := w.consumers[k];
    match step
    case Ask => me.Idle?
    case Preliminary => me.Asking? && me.job.state == Completed && me.job.catalogRevision == Some(w.catalog.revision)
    case Queue => me.Checked? && w.section.None?
    case ReadRevision => me.Inside?
    case FindOutput => me.Read?
    case Consume => me.Found? && Mints(me.job, me.revision, me.output)
    case FinishConsuming => me.Consuming?
    case Deny => me.Asking? || (me.Found? && !Mints(me.job, me.revision, me.output))
  }

  function SetConsumer(w: World, k: nat, consumer: Consumer): World
    requires k < |w.consumers|
  {
    w.(consumers := w.consumers[k := consumer])
  }

  function ConsumeNext(w: World, k: nat, step: ConsumeStep): World
    requires ConsumeMay(w, k, step)
  {
    var me := w.consumers[k];
    match step
    case Ask => SetConsumer(w, k, Asking(w.job))
    case Preliminary => SetConsumer(w, k, Checked(me.job))
    case Queue => SetConsumer(w, k, Inside(me.job)).(section := Some(ByConsumer(k)))
    case ReadRevision => SetConsumer(w, k, Read(me.job, w.catalog.revision))
    case FindOutput => SetConsumer(w, k, Found(me.job, me.revision, w.output))
    case Consume => SetConsumer(w, k, Consuming(me.job, me.revision, me.output))
    case FinishConsuming => SetConsumer(w, k, Idle).(section := None)
    case Deny => SetConsumer(w, k, Idle).(section := if me.Found? then None else w.section)
  }

  // ---------------------------------------------------------------- runs

  datatype Step = ByRender(render: RenderStep) | ByReview(who: nat, review: ReviewStep) | ByConsume(who: nat, consume: ConsumeStep)

  ghost predicate May(w: World, step: Step) {
    match step
    case ByRender(s) => RenderMay(w, s)
    case ByReview(k, s) => ReviewMay(w, k, s)
    case ByConsume(k, s) => ConsumeMay(w, k, s)
  }

  function Next(w: World, step: Step): World
    requires May(w, step)
  {
    match step
    case ByRender(s) => RenderNext(w, s)
    case ByReview(k, s) => ReviewNext(w, k, s)
    case ByConsume(k, s) => ConsumeNext(w, k, s)
  }

  /** A workspace with no output yet; nobody is doing anything. */
  predicate Initial(w: World) {
    && w.job.state != Completed && w.job.catalogRevision.None? && w.output.None? && w.section.None?
    && w.renderer.Resting?
    && (forall k | 0 <= k < |w.reviewers| :: w.reviewers[k].Away?)
    && (forall k | 0 <= k < |w.consumers| :: w.consumers[k].Idle?)
    && w.history == map[w.catalog.revision := w.catalog] && w.lastClaim == 0
  }

  ghost predicate Takes(w: World, step: Step, after: World) {
    May(w, step) && after == Next(w, step)
  }

  ghost predicate IsRun(worlds: seq<World>, steps: seq<Step>) {
    && |worlds| == |steps| + 1 && Initial(worlds[0])
    && forall n | 0 <= n < |steps| :: Takes(worlds[n], steps[n], worlds[n + 1])
  }

  lemma RunGoesOn(worlds: seq<World>, steps: seq<Step>, n: nat)
    requires IsRun(worlds, steps) && n < |steps|
    ensures May(worlds[n], steps[n]) && worlds[n + 1] == Next(worlds[n], steps[n])
  {
    assert Takes(worlds[n], steps[n], worlds[n + 1]);
  }

  // ---------------------------------------------------------------- the invariant

  /** The decision live for a segment, `None` for a segment in a cast voice. */
  function LiveDecision(c: Catalog, s: Segment): Option<Approval> {
    if s.fallback.Some? then Filed(c.approvals, s.id) else None
  }

  /** Recorded under the decision live in `c`, which is about exactly this segment when it falls back. */
  predicate Authorized(c: Catalog, s: Segment, audio: Audio) {
    && audio.segmentId == s.id && audio.identity == IdentityOf(s, LiveDecision(c, s))
    && (s.fallback.Some? ==> Kept(c, SubjectOf(s)))
  }

  /** One authorized recording for every segment of the script, in its order. */
  predicate AllAuthorized(c: Catalog, script: seq<Segment>, pieces: seq<Audio>) {
    |pieces| == |script| && forall i | 0 <= i < |script| :: Authorized(c, script[i], pieces[i])
  }

  /** The gate claims the live decision of every fallback segment and nothing for the others. */
  predicate ClaimsLive(c: Catalog, gate: Gate) {
    forall i | 0 <= i < |gate.script| :: ClaimsLiveFor(c, gate, gate.script[i])
  }

  predicate ClaimsLiveFor(c: Catalog, gate: Gate, s: Segment) {
    Filed(gate.approvals, s.id) == LiveDecision(c, s) && (s.fallback.Some? ==> Kept(c, SubjectOf(s)))
  }

  predicate GoodHistory(w: World) {
    && w.catalog.revision in w.history && w.history[w.catalog.revision] == w.catalog
    && (forall r | r in w.history :: r <= w.catalog.revision)
    && w.lastClaim <= w.catalog.revision
  }

  predicate Claims(w: World, gate: Gate) {
    && w.lastClaim <= gate.revision <= w.catalog.revision
    && gate.revision in w.history && ClaimsLive(w.history[gate.revision], gate)
  }

  predicate FoundFit(gate: Gate, found: seq<Option<Audio>>) {
    |found| == |gate.script| && forall i | 0 <= i < |found| && found[i].Some? :: Fits(found[i].value, gate, gate.script[i])
  }

  predicate PiecesFit(gate: Gate, pieces: seq<Audio>) {
    |pieces| == |gate.script| && forall i | 0 <= i < |pieces| :: Fits(pieces[i], gate, gate.script[i])
  }

  /** The recordings gathered so far; segment IDs are unique, so none is overwritten. */
  ghost predicate Gathered(gate: Gate, audio: map<SegmentId, Audio>, done: nat) {
    && UniqueIds(gate.script) && done <= |gate.script|
    && forall i | 0 <= i < done :: gate.script[i].id in audio && Fits(audio[gate.script[i].id], gate, gate.script[i])
  }

  /** An output found in storage: every piece rendered under the catalog of its claim. */
  predicate GoodOutput(w: World, output: Output) {
    && output.claim <= w.catalog.revision
    && output.claim in w.history && AllAuthorized(w.history[output.claim], output.script, output.pieces)
  }

  predicate GoodStore(w: World) {
    && (w.output.Some? ==> GoodOutput(w, w.output.value) && w.output.value.claim == w.lastClaim)
    && (w.job.state == Completed ==> w.output.Some? && w.job.catalogRevision == Some(w.output.value.claim))
    && GoodJob(w, w.job)
  }

  /** A job object, however old, records no claim newer than the last committed one. */
  predicate GoodJob(w: World, job: Job) {
    && (job.catalogRevision.Some? ==> job.catalogRevision.value <= w.lastClaim)
    && (job.state == Completed ==> job.catalogRevision.Some?)
  }

  ghost predicate GoodRenderer(w: World) {
    match w.renderer
    case Resting => true
    case Failing => true
    case Loaded(job) => GoodJob(w, job)
    case Gated(gate) => Claims(w, gate) && UniqueIds(gate.script)
    case Planned(gate, found) => Claims(w, gate) && UniqueIds(gate.script) && FoundFit(gate, found)
    case Claimed(gate, found) => Claims(w, gate) && UniqueIds(gate.script) && FoundFit(gate, found)
    case Rendering(gate, found, audio, done) => Claims(w, gate) && FoundFit(gate, found) && Gathered(gate, audio, done)
    case Assembling(gate, pieces) => Claims(w, gate) && PiecesFit(gate, pieces)
    case Committing(gate, pieces) => Claims(w, gate) && PiecesFit(gate, pieces)
  }

  predicate GoodReviewer(w: World, k: nat)
    requires k < |w.reviewers|
  {
    match w.reviewers[k]
    case Away => w.section != Some(ByReviewer(k))
    case Opened(job) => w.section != Some(ByReviewer(k))
    case _ => w.section == Some(ByReviewer(k))
  }

  predicate GoodConsumer(w: World, k: nat)
    requires k < |w.consumers|
  {
    var me := w.consumers[k];
    && (me.Inside? || me.Read? || me.Found? || me.Consuming? <==> w.section == Some(ByConsumer(k)))
    && (!me.Idle? ==> GoodJob(w, me.job))
    && (me.Read? || me.Found? || me.Consuming? ==> me.revision == w.catalog.revision)
    && (me.Consuming? ==> Mints(me.job, me.revision, me.output))
    && ((me.Found? || me.Consuming?) && me.output.Some? ==>
          && GoodOutput(w, me.output.value)
          && (me.job.catalogRevision.Some? ==> me.job.catalogRevision.value <= me.output.value.claim))
  }

  ghost predicate Inv(w: World) {
    && GoodHistory(w) && GoodStore(w) && GoodRenderer(w)
    && (forall k | 0 <= k < |w.reviewers| :: GoodReviewer(w, k))
    && (forall k | 0 <= k < |w.consumers| :: GoodConsumer(w, k))
  }

  // ---------------------------------------------------------------- every step keeps it

  predicate FallsBackAs(s: Segment, subject: Subject) {
    s.fallback.Some? && SubjectOf(s) == subject
  }

  /** The subjects are those of the fallback segments. */
  lemma {:induction false} SubjectsShape(script: seq<Segment>)
    ensures forall i | 0 <= i < |script| && script[i].fallback.Some? :: SubjectOf(script[i]) in SubjectsOf(script)
    ensures forall subject | subject in SubjectsOf(script) :: exists i | 0 <= i < |script| :: FallsBackAs(script[i], subject)
  {
    if script != [] {
      var rest := script[1..];
      SubjectsShape(rest);
      assert SubjectsOf(script) == (if script[0].fallback.Some? then [SubjectOf(script[0])] else []) + SubjectsOf(rest);
      forall subject | subject in SubjectsOf(script) ensures exists i | 0 <= i < |script| :: FallsBackAs(script[i], subject) {
        if FallsBackAs(script[0], subject) {
        } else {
          assert subject in SubjectsOf(rest);
          var i :| 0 <= i < |rest| && FallsBackAs(rest[i], subject);
          assert script[i + 1] == rest[i];
        }
      }
      forall i | 0 <= i < |script| && script[i].fallback.Some? ensures SubjectOf(script[i]) in SubjectsOf(script) {
        if i > 0 {
          assert script[i] == rest[i - 1];
        }
      }
    }
  }

  /** A cast segment is no subject: IDs are unique in the script. */
  lemma CastIsNoSubject(script: seq<Segment>, i: nat)
    requires UniqueIds(script) && i < |script| && script[i].fallback.None?
    ensures script[i].id !in IdsOf(SubjectsOf(script))
  {
    var subjects := SubjectsOf(script);
    SubjectsShape(script);
    forall k | 0 <= k < |subjects| ensures subjects[k].segmentId != script[i].id {
      assert subjects[k] in subjects;
      var j :| 0 <= j < |script| && FallsBackAs(script[j], subjects[k]);
    }
  }

  /** An opened gate claims, for each segment of the script, exactly its live decision. */
  lemma OpenedGateClaimsLive(c: Catalog, script: seq<Segment>)
    requires Opens(c, script)
    ensures ClaimsLive(c, GateOf(c, script))
  {
    var subjects, gate := SubjectsOf(script), GateOf(c, script);
    NothingMissingIff(c, subjects);
    ResolvedShape(c, subjects);
    forall i | 0 <= i < |script| ensures ClaimsLiveFor(c, gate, script[i]) {
      if script[i].fallback.Some? {
        SubjectsShape(script);
        var k :| 0 <= k < |subjects| && subjects[k] == SubjectOf(script[i]);
        assert subjects[k].segmentId in IdsOf(subjects);
      } else {
        CastIsNoSubject(script, i);
      }
    }
  }

  /** What fits a live gate is authorized. */
  lemma FittingIsAuthorized(c: Catalog, gate: Gate, pieces: seq<Audio>)
    requires ClaimsLive(c, gate) && PiecesFit(gate, pieces)
    ensures AllAuthorized(c, gate.script, pieces)
  {
    forall i | 0 <= i < |pieces| ensures Authorized(c, gate.script[i], pieces[i]) {
      assert ClaimsLiveFor(c, gate, gate.script[i]);
    }
  }

  lemma OneMoreGathered(gate: Gate, audio: map<SegmentId, Audio>, done: nat, piece: Audio)
    requires Gathered(gate, audio, done) && done < |gate.script| && Fits(piece, gate, gate.script[done])
    ensures Gathered(gate, audio[gate.script[done].id := piece], done + 1)
  {
  }

  /** A new recording touches no claim. */
  lemma FilingKeepsInv(w: World, made: Audio)
    requires Inv(w)
    ensures Inv(w.(artifacts := w.artifacts + {made}))
  {
    var after := w.(artifacts := w.artifacts + {made});
    forall i | 0 <= i < |after.reviewers| ensures GoodReviewer(after, i) {
      assert GoodReviewer(w, i);
    }
    forall i | 0 <= i < |after.consumers| ensures GoodConsumer(after, i) {
      assert GoodConsumer(w, i);
    }
  }

  lemma RenderSegmentKeepsInv(w: World, made: Audio)
    requires Inv(w) && RenderMay(w, RenderSegment(made))
    ensures Inv(RenderedOne(w, made))
  {
    var r, after := w.renderer, RenderedOne(w, made);
    if r.found[r.done].Some? {
      OneMoreGathered(r.gate, r.audio, r.done, r.found[r.done].value);
      WorkerMoves(w, after.renderer);
    } else {
      OneMoreGathered(r.gate, r.audio, r.done, made);
      SavingKeepsInv(w, Running);
      FilingKeepsInv(SaveJob(w, Running), made);
      WorkerMoves(SaveJob(w, Running).(artifacts := w.artifacts + {made}), after.renderer);
    }
  }

  lemma SavingKeepsInv(w: World, state: JobState)
    requires Inv(w) && state != Completed
    ensures Inv(SaveJob(w, state))
  {
    var after := SaveJob(w, state);
    forall i | 0 <= i < |after.reviewers| ensures GoodReviewer(after, i) {
      assert GoodReviewer(w, i);
    }
    forall i | 0 <= i < |after.consumers| ensures GoodConsumer(after, i) {
      assert GoodConsumer(w, i);
    }
  }

  /** Only the render worker's own position changes. */
  lemma WorkerMoves(w: World, renderer: Renderer)
    requires Inv(w) && GoodRenderer(w.(renderer := renderer))
    ensures Inv(w.(renderer := renderer))
  {
    var after := w.(renderer := renderer);
    forall i | 0 <= i < |after.reviewers| ensures GoodReviewer(after, i) {
      assert GoodReviewer(w, i);
    }
    forall i | 0 <= i < |after.consumers| ensures GoodConsumer(after, i) {
      assert GoodConsumer(w, i);
    }
  }

  /** Committing stores a claim at least as new as every earlier one. */
  lemma CommitKeepsInv(w: World)
    requires Inv(w) && w.renderer.Committing?
    ensures Inv(RenderNext(w, Commit))
  {
    var after := RenderNext(w, Commit);
    FittingIsAuthorized(w.history[w.renderer.gate.revision], w.renderer.gate, w.renderer.pieces);
    forall i | 0 <= i < |after.reviewers| ensures GoodReviewer(after, i) {
      assert GoodReviewer(w, i);
    }
    forall i | 0 <= i < |after.consumers| ensures GoodConsumer(after, i) {
      assert GoodConsumer(w, i);
    }
  }

  /** The worker saves a job that is not completed and moves on. */
  lemma SaveAndMove(w: World, state: JobState, renderer: Renderer)
    requires Inv(w) && state != Completed && GoodRenderer(SaveJob(w, state).(renderer := renderer))
    ensures Inv(SaveJob(w, state).(renderer := renderer))
  {
    SavingKeepsInv(w, state);
    WorkerMoves(SaveJob(w, state), renderer);
  }

  predicate IsPreparation(step: RenderStep) {
    step.LoadJob? || step.ReopenStaleOutput? || step.AbandonRunning? || step.ReadGate? || step.BreakPlanning? || step.Plan?
    || step.ReadGateAgain?
  }

  lemma PreparationKeepsInv(w: World, step: RenderStep)
    requires Inv(w) && RenderMay(w, step) && IsPreparation(step)
    ensures Inv(RenderNext(w, step))
  {
    var r := w.renderer;
    match step
    case LoadJob => WorkerMoves(w, Loaded(w.job));
    case ReopenStaleOutput => SaveAndMove(w, AwaitingReview, Loaded(Job(AwaitingReview, None)));
    case AbandonRunning => SaveAndMove(w, Abandoned, Loaded(Job(Abandoned, None)));
    case ReadGate(script) =>
      OpenedGateClaimsLive(w.catalog, script);
      WorkerMoves(w, Gated(GateOf(w.catalog, script)));
    case BreakPlanning => SaveAndMove(w, Running, Failing);
    case Plan(found) => WorkerMoves(w, Planned(r.gate, found));
    case ReadGateAgain(_) => WorkerMoves(w, Claimed(r.gate, r.found));
  }

  lemma AssemblingKeepsInv(w: World)
    requires Inv(w) && RenderMay(w, CheckBeforeAssembly)
    ensures Inv(RenderNext(w, CheckBeforeAssembly))
  {
    var r := w.renderer;
    SaveAndMove(w, Running, Assembling(r.gate, PiecesOf(r.gate.script, r.audio)));
  }

  lemma RenderKeepsInv(w: World, step: RenderStep)
    requires Inv(w) && RenderMay(w, step)
    ensures Inv(RenderNext(w, step))
  {
    var r := w.renderer;
    match step
    case SaveRunning => SaveAndMove(w, Running, Rendering(r.gate, r.found, map[], 0));
    case RenderSegment(made) => RenderSegmentKeepsInv(w, made);
    case CheckBeforeAssembly => AssemblingKeepsInv(w);
    case CheckBeforeCommit => WorkerMoves(w, Committing(r.gate, r.pieces));
    case Commit => CommitKeepsInv(w);
    case FailRender(aborted) => SaveAndMove(w, if aborted then Abandoned else Failed, Resting);
    case StopRender => WorkerMoves(w, Resting);
    case _ => PreparationKeepsInv(w, step);
  }

  /** A catalog write happens while the deciding person holds the section, so no consumer is inside. */
  lemma WriteKeepsInv(w: World, k: nat, write: Write)
    requires Inv(w) && ReviewMay(w, k, WriteCatalog(write))
    ensures Inv(ReviewNext(w, k, WriteCatalog(write)))
  {
    var after := ReviewNext(w, k, WriteCatalog(write));
    assert GoodReviewer(w, k);
    assert GoodHistory(after) && GoodStore(after) && GoodRenderer(after);
    forall i | 0 <= i < |after.reviewers| ensures GoodReviewer(after, i) {
      assert GoodReviewer(w, i);
    }
    forall i | 0 <= i < |after.consumers| ensures GoodConsumer(after, i) {
      assert GoodConsumer(w, i);
    }
  }

  /** Only a reviewer's own position and the section change. */
  lemma MovingKeepsInv(w: World, k: nat, me: Reviewer, section: Option<Holder>)
    requires Inv(w) && k < |w.reviewers|
    requires w.section == section || (w.section.None? && section == Some(ByReviewer(k)))
          || (w.section == Some(ByReviewer(k)) && section.None?)
    requires !(me.Away? || me.Opened?) <==> section == Some(ByReviewer(k))
    ensures Inv(SetReviewer(w, k, me).(section := section))
  {
    var after := SetReviewer(w, k, me).(section := section);
    forall i | 0 <= i < |after.reviewers| ensures GoodReviewer(after, i) {
      assert GoodReviewer(w, i);
    }
    forall i | 0 <= i < |after.consumers| ensures GoodConsumer(after, i) {
      assert GoodConsumer(w, i);
    }
  }

  lemma ReviewKeepsInv(w: World, k: nat, step: ReviewStep)
    requires Inv(w) && ReviewMay(w, k, step)
    ensures Inv(ReviewNext(w, k, step))
  {
    var me := w.reviewers[k];
    assert GoodReviewer(w, k);
    match step
    case OpenJob => MovingKeepsInv(w, k, Opened(w.job), w.section);
    case Enter => MovingKeepsInv(w, k, Entered(me.job), Some(ByReviewer(k)));
    case StartReconcile => MovingKeepsInv(w, k, Deciding, Some(ByReviewer(k)));
    case Refuse => MovingKeepsInv(w, k, Away, None);
    case ReopenBeforeWrite =>
      SavingKeepsInv(w, AwaitingReview);
      MovingKeepsInv(if me.job.state == Completed then SaveJob(w, AwaitingReview) else w, k, Deciding, w.section);
    case WriteCatalog(write) => WriteKeepsInv(w, k, write);
    case Reread => MovingKeepsInv(w, k, Rechecking(w.job), w.section);
    case ReopenAfterWrite =>
      SavingKeepsInv(w, AwaitingReview);
      MovingKeepsInv(if me.latest.state == Completed then SaveJob(w, AwaitingReview) else w, k, Away, None);
    case Leave => MovingKeepsInv(w, k, Away, None);
  }

  /** Only the consumer's own position and the section change. */
  lemma ConsumerMoves(w: World, k: nat, me: Consumer, section: Option<Holder>)
    requires Inv(w) && k < |w.consumers|
    requires w.section == section || (w.section.None? && section == Some(ByConsumer(k)))
          || (w.section == Some(ByConsumer(k)) && section.None?)
    requires GoodConsumer(SetConsumer(w, k, me).(section := section), k)
    ensures Inv(SetConsumer(w, k, me).(section := section))
  {
    var after := SetConsumer(w, k, me).(section := section);
    forall i | 0 <= i < |after.reviewers| ensures GoodReviewer(after, i) {
      assert GoodReviewer(w, i);
    }
    forall i | 0 <= i < |after.consumers| ensures GoodConsumer(after, i) {
      assert GoodConsumer(w, i);
    }
  }

  lemma ConsumeKeepsInv(w: World, k: nat, step: ConsumeStep)
    requires Inv(w) && ConsumeMay(w, k, step)
    ensures Inv(ConsumeNext(w, k, step))
  {
    var after := ConsumeNext(w, k, step);
    assert GoodConsumer(w, k);
    assert after == SetConsumer(w, k, after.consumers[k]).(section := after.section);
    ConsumerMoves(w, k, after.consumers[k], after.section);
  }

  lemma {:induction false} EveryWorldIsGood(worlds: seq<World>, steps: seq<Step>, n: nat)
    requires IsRun(worlds, steps) && n < |worlds|
    ensures Inv(worlds[n])
  {
    if n > 0 {
      EveryWorldIsGood(worlds, steps, n - 1);
      var w, step := worlds[n - 1], steps[n - 1];
      RunGoesOn(worlds, steps, n - 1);
      match step
      case ByRender(s) => RenderKeepsInv(w, s);
      case ByReview(k, s) => ReviewKeepsInv(w, k, s);
      case ByConsume(k, s) => ConsumeKeepsInv(w, k, s);
    }
  }

  // ---------------------------------------------------------------- what the authority guarantees

  /**
   * At every moment while a consumer works on an output, in any interleaving, the output holds one
   * recording for every segment of its script, and every fallback segment of the script has a live
   * approval about exactly that segment, under which its recording was rendered.
   */
  lemma ExposedOutputIsLive(worlds: seq<World>, steps: seq<Step>, n: nat, k: nat)
    requires IsRun(worlds, steps) && n < |worlds| && k < |worlds[n].consumers| && worlds[n].consumers[k].Consuming?
    ensures worlds[n].consumers[k].output.Some?
    ensures var output := worlds[n].consumers[k].output.value;
            AllAuthorized(worlds[n].catalog, output.script, output.pieces) && output.claim == worlds[n].catalog.revision
  {
    EveryWorldIsGood(worlds, steps, n);
    assert GoodConsumer(worlds[n], k);
  }

  /** In particular no exposed fallback segment lacks a live decision, and the render gate would open for its script. */
  lemma ExposedScriptIsApproved(worlds: seq<World>, steps: seq<Step>, n: nat, k: nat)
    requires IsRun(worlds, steps) && n < |worlds| && k < |worlds[n].consumers| && worlds[n].consumers[k].Consuming?
    ensures worlds[n].consumers[k].output.Some?
    ensures MissingOf(worlds[n].catalog, SubjectsOf(worlds[n].consumers[k].output.value.script)) == []
  {
    ExposedOutputIsLive(worlds, steps, n, k);
    var output, c := worlds[n].consumers[k].output.value, worlds[n].catalog;
    forall i | 0 <= i < |output.script| && output.script[i].fallback.Some? ensures Kept(c, SubjectOf(output.script[i])) {
      assert Authorized(c, output.script[i], output.pieces[i]);
    }
    NothingMissing(c, output.script);
  }

  lemma {:induction false} NothingMissing(c: Catalog, script: seq<Segment>)
    requires forall i | 0 <= i < |script| && script[i].fallback.Some? :: Kept(c, SubjectOf(script[i]))
    ensures MissingOf(c, SubjectsOf(script)) == []
  {
    if script != [] {
      forall i | 0 <= i < |script[1..]| && script[1..][i].fallback.Some? ensures Kept(c, SubjectOf(script[1..][i])) {
        assert script[1..][i] == script[i + 1];
      }
      NothingMissing(c, script[1..]);
      if script[0].fallback.Some? {
        assert Kept(c, SubjectOf(script[0]));
        assert SubjectsOf(script) == [SubjectOf(script[0])] + SubjectsOf(script[1..]);
        assert SubjectsOf(script)[1..] == SubjectsOf(script[1..]);
      } else {
        assert SubjectsOf(script) == SubjectsOf(script[1..]);
      }
    }
  }

  /** Once a decision moved the revision past a job's claim, no consumer with that job works on an output again. */
  lemma MovedCatalogIsNeverExposed(worlds: seq<World>, steps: seq<Step>, m: nat, n: nat, k: nat)
    requires IsRun(worlds, steps) && m <= n < |worlds| && k < |worlds[n].consumers| && worlds[n].consumers[k].Consuming?
    ensures worlds[n].consumers[k].job.catalogRevision.Some?
    ensures worlds[m].catalog.revision <= worlds[n].consumers[k].job.catalogRevision.value
  {
    EveryWorldIsGood(worlds, steps, n);
    assert GoodConsumer(worlds[n], k);
    RevisionGrows(worlds, steps, m, n);
  }

  lemma OnlyWritesMoveTheCatalog(w: World, step: Step)
    requires May(w, step)
    ensures Next(w, step).catalog
         == if step.ByReview? && step.review.WriteCatalog? then Written(w.catalog, step.review.write) else w.catalog
  {
  }

  lemma {:induction false} RevisionGrows(worlds: seq<World>, steps: seq<Step>, m: nat, n: nat)
    requires IsRun(worlds, steps) && m <= n < |worlds|
    ensures worlds[m].catalog.revision <= worlds[n].catalog.revision
    decreases n - m
  {
    if m < n {
      RevisionGrows(worlds, steps, m, n - 1);
      RunGoesOn(worlds, steps, n - 1);
      OnlyWritesMoveTheCatalog(worlds[n - 1], steps[n - 1]);
    }
  }

  /** The authority is not vacuous: an up-to-date completed row always mints its own output. */
  lemma CurrentOutputIsMinted(worlds: seq<World>, steps: seq<Step>, n: nat)
    requires IsRun(worlds, steps) && n < |worlds| && worlds[n].job.state == Completed
    ensures Mints(worlds[n].job, worlds[n].catalog.revision, worlds[n].output)
       <==> worlds[n].output.Some? && worlds[n].output.value.claim == worlds[n].catalog.revision
    ensures worlds[n].output.Some?
  {
    EveryWorldIsGood(worlds, steps, n);
  }

  // ---------------------------------------------------------------- a decision reopens

  lemma OnlyCommitCompletes(w: World, step: Step)
    requires May(w, step) && step != ByRender(Commit) && w.job.state != Completed
    ensures Next(w, step).job.state != Completed
  {
  }

  lemma RenderLeavesReviewers(w: World, step: RenderStep)
    requires RenderMay(w, step)
    ensures RenderNext(w, step).reviewers == w.reviewers
  {
  }

  lemma ReviewLeavesOthers(w: World, i: nat, step: ReviewStep, k: nat)
    requires ReviewMay(w, i, step) && k < |w.reviewers| && i != k
    ensures |ReviewNext(w, i, step).reviewers| == |w.reviewers| && ReviewNext(w, i, step).reviewers[k] == w.reviewers[k]
  {
  }

  lemma ConsumeLeavesReviewers(w: World, i: nat, step: ConsumeStep)
    requires ConsumeMay(w, i, step)
    ensures ConsumeNext(w, i, step).reviewers == w.reviewers
  {
  }

  lemma OthersLeaveReviewer(w: World, step: Step, k: nat)
    requires May(w, step) && k < |w.reviewers| && !(step.ByReview? && step.who == k)
    ensures |Next(w, step).reviewers| == |w.reviewers| && Next(w, step).reviewers[k] == w.reviewers[k]
  {
    match step
    case ByRender(r) => RenderLeavesReviewers(w, r);
    case ByReview(i, r) => ReviewLeavesOthers(w, i, r, k);
    case ByConsume(i, c) => ConsumeLeavesReviewers(w, i, c);
  }

  /** Reviewer `k` does nothing between the two, and no output is committed. */
  ghost predicate Undisturbed(steps: seq<Step>, from: nat, upTo: nat, k: nat)
    requires upTo <= |steps|
  {
    forall n | from <= n < upTo :: steps[n] != ByRender(Commit) && !(steps[n].ByReview? && steps[n].who == k)
  }

  lemma RereadIsRechecking(w: World, k: nat)
    requires ReviewMay(w, k, Reread)
    ensures var after := ReviewNext(w, k, Reread);
            k < |after.reviewers| && after.reviewers[k] == Rechecking(w.job) && after.job == w.job
  {
  }

  /** What reviewer `k` reread still stands, and no completed job came up meanwhile. */
  predicate Stands(w: World, k: nat, latest: Job) {
    k < |w.reviewers| && w.reviewers[k] == Rechecking(latest) && (latest.state != Completed ==> w.job.state != Completed)
  }

  lemma StepLetsStand(w: World, step: Step, after: World, k: nat, latest: Job)
    requires Takes(w, step, after) && Stands(w, k, latest)
    requires step != ByRender(Commit) && !(step.ByReview? && step.who == k)
    ensures Stands(after, k, latest)
  {
    OthersLeaveReviewer(w, step, k);
    if latest.state != Completed {
      OnlyCommitCompletes(w, step);
    }
  }

  lemma RereadStands(w: World, k: nat, after: World)
    requires Takes(w, ByReview(k, Reread), after)
    ensures Stands(after, k, w.job)
  {
    RereadIsRechecking(w, k);
  }

  lemma {:induction false} RecheckStands(worlds: seq<World>, steps: seq<Step>, l: nat, n: nat, k: nat)
    requires |worlds| == |steps| + 1 && l < n <= |steps| && steps[l] == ByReview(k, Reread)
    requires forall i | l <= i < n :: Takes(worlds[i], steps[i], worlds[i + 1])
    requires Undisturbed(steps, l + 1, n, k)
    ensures Stands(worlds[n], k, worlds[l].job)
    decreases n - l
  {
    var before, step, after, latest := worlds[n - 1], steps[n - 1], worlds[n], worlds[l].job;
    if n > l + 1 {
      RecheckStands(worlds, steps, l, n - 1, k);
      StepLetsStand(before, step, after, k, latest);
    } else {
      RereadStands(before, k, after);
    }
  }

  lemma RecheckedIsReopened(w: World, k: nat, latest: Job)
    requires Stands(w, k, latest) && ReviewMay(w, k, ReopenAfterWrite)
    ensures ReviewNext(w, k, ReopenAfterWrite).job.state != Completed && ReviewNext(w, k, ReopenAfterWrite).section.None?
  {
  }

  /**
   * When a decision is over, no completed job is stored, unless a render committed while the reviewer was
   * rechecking; and such a commit is opened only if its claim is the live revision.
   */
  lemma DecisionReopens(worlds: seq<World>, steps: seq<Step>, l: nat, m: nat, k: nat)
    requires IsRun(worlds, steps) && l < m < |steps|
    requires steps[l] == ByReview(k, Reread) && steps[m] == ByReview(k, ReopenAfterWrite)
    requires Undisturbed(steps, l + 1, m, k)
    ensures worlds[m + 1].job.state != Completed && worlds[m + 1].section.None?
  {
    RecheckStands(worlds, steps, l, m, k);
    RunGoesOn(worlds, steps, m);
    RecheckedIsReopened(worlds[m], k, worlds[l].job);
  }

  /** A decision on a completed job takes it back to review before it writes anything. */
  lemma DecisionReopensFirst(w: World, k: nat)
    requires ReviewMay(w, k, ReopenBeforeWrite) && w.reviewers[k].job.state == Completed
    ensures ReviewNext(w, k, ReopenBeforeWrite).job == Job(AwaitingReview, None)
    ensures ReviewNext(w, k, ReopenBeforeWrite).output.None? && ReviewNext(w, k, ReopenBeforeWrite).catalog == w.catalog
  {
  }

  // ---------------------------------------------------------------- the protocol gets through

  lemma Extend(worlds: seq<World>, steps: seq<Step>, step: Step) returns (worlds': seq<World>, steps': seq<Step>, last: World)
    requires IsRun(worlds, steps) && May(worlds[|steps|], step)
    ensures IsRun(worlds', steps') && last == Next(worlds[|steps|], step) && worlds'[|steps'|] == last
  {
    last := Next(worlds[|steps|], step);
    worlds', steps' := worlds + [last], steps + [step];
    forall n | 0 <= n < |steps'| ensures Takes(worlds'[n], steps'[n], worlds'[n + 1]) {
      if n < |steps| {
        assert Takes(worlds[n], steps[n], worlds[n + 1]);
      }
    }
  }

  /** The recordings an engine owes a gate. */
  function Owed(gate: Gate): (pieces: seq<Audio>)
    ensures PiecesFit(gate, pieces)
  {
    seq(|gate.script|, i requires 0 <= i < |gate.script| =>
          Audio(gate.script[i].id, IdentityOf(gate.script[i], Filed(gate.approvals, gate.script[i].id)), 0))
  }

  /** An engine that answers every request gathers one recording per segment. */
  lemma {:induction false} EngineGetsThrough(worlds: seq<World>, steps: seq<Step>, count: nat)
    returns (worlds': seq<World>, steps': seq<Step>, last: World)
    requires IsRun(worlds, steps) && worlds[|steps|].renderer.Rendering?
    requires var r := worlds[|steps|].renderer;
             && r.done == 0 && r.audio == map[] && FoundFit(r.gate, r.found) && UniqueIds(r.gate.script)
             && count <= |r.gate.script|
             && worlds[|steps|].job == Job(Running, None) && worlds[|steps|].output.None?
    ensures IsRun(worlds', steps') && worlds'[|steps'|] == last
    ensures last.renderer.Rendering? && last.renderer.done == count
    ensures var before := worlds[|steps|];
            && last.renderer.gate == before.renderer.gate && last.renderer.found == before.renderer.found
            && Gathered(before.renderer.gate, last.renderer.audio, count)
            && last == before.(artifacts := last.artifacts, renderer := last.renderer)
    decreases count
  {
    if count == 0 {
      return worlds, steps, worlds[|steps|];
    }
    worlds', steps', last := EngineGetsThrough(worlds, steps, count - 1);
    var r := last.renderer;
    var made := Owed(r.gate)[count - 1];
    var piece := if r.found[r.done].Some? then r.found[r.done].value else made;
    OneMoreGathered(r.gate, r.audio, r.done, piece);
    worlds', steps', last := Extend(worlds', steps', ByRender(RenderSegment(made)));
  }

  /** An undisturbed command up to the point where rendering starts. */
  lemma UndisturbedRenderStarts(catalog: Catalog, script: seq<Segment>)
    returns (worlds: seq<World>, steps: seq<Step>, last: World)
    requires Opens(catalog, script)
    ensures IsRun(worlds, steps) && worlds[|steps|] == last
    ensures last.catalog == catalog && last.section.None? && last.consumers == [Idle]
    ensures last.job == Job(Running, None) && last.output.None?
    ensures last.renderer == Rendering(GateOf(catalog, script), seq(|script|, _ => None), map[], 0)
  {
    last := World(catalog, Job(AwaitingReview, None), None, {}, None, Resting, [], [Idle], map[catalog.revision := catalog], 0);
    worlds, steps := [last], [];
    worlds, steps, last := Extend(worlds, steps, ByRender(LoadJob));
    worlds, steps, last := Extend(worlds, steps, ByRender(ReadGate(script)));
    worlds, steps, last := Extend(worlds, steps, ByRender(Plan(seq(|script|, _ => None))));
    worlds, steps, last := Extend(worlds, steps, ByRender(ReadGateAgain(script)));
    worlds, steps, last := Extend(worlds, steps, ByRender(SaveRunning));
  }

  lemma UndisturbedRenderCommits(catalog: Catalog, script: seq<Segment>)
    returns (worlds: seq<World>, steps: seq<Step>, last: World, pieces: seq<Audio>)
    requires Opens(catalog, script)
    ensures IsRun(worlds, steps) && worlds[|steps|] == last
    ensures last.catalog == catalog && last.section.None? && last.consumers == [Idle]
    ensures last.job == Job(Completed, Some(catalog.revision))
    ensures last.output == Some(Output(catalog.revision, script, pieces))
  {
    worlds, steps, last := UndisturbedRenderStarts(catalog, script);
    worlds, steps, last := EngineGetsThrough(worlds, steps, |script|);
    worlds, steps, last := Extend(worlds, steps, ByRender(CheckBeforeAssembly));
    pieces := last.renderer.pieces;
    worlds, steps, last := Extend(worlds, steps, ByRender(CheckBeforeCommit));
    worlds, steps, last := Extend(worlds, steps, ByRender(Commit));
  }

  /** From any catalog for which the gate opens, an undisturbed render of the script is exposed to a consumer. */
  lemma UndisturbedRenderIsExposed(catalog: Catalog, script: seq<Segment>)
    returns (worlds: seq<World>, steps: seq<Step>, last: World)
    requires Opens(catalog, script)
    ensures IsRun(worlds, steps) && worlds[|steps|] == last && last.catalog == catalog
    ensures |last.consumers| == 1 && last.consumers[0].Consuming? && last.consumers[0].output.Some?
    ensures var output := last.consumers[0].output.value;
            output.claim == catalog.revision && output.script == script && AllAuthorized(catalog, script, output.pieces)
  {
    var pieces;
    worlds, steps, last, pieces := UndisturbedRenderCommits(catalog, script);
    worlds, steps, last := Extend(worlds, steps, ByConsume(0, Ask));
    worlds, steps, last := Extend(worlds, steps, ByConsume(0, Preliminary));
    worlds, steps, last := Extend(worlds, steps, ByConsume(0, Queue));
    worlds, steps, last := Extend(worlds, steps, ByConsume(0, ReadRevision));
    worlds, steps, last := Extend(worlds, steps, ByConsume(0, FindOutput));
    worlds, steps, last := Extend(worlds, steps, ByConsume(0, Consume));
    ExposedOutputIsLive(worlds, steps, |steps|, 0);
  }

  /** A reviewer who is not kept waiting reopens a completed job, writes, and leaves. */
  lemma UndisturbedDecisionIsMade(worlds: seq<World>, steps: seq<Step>, k: nat, write: Write)
    returns (worlds': seq<World>, steps': seq<Step>, last: World)
    requires IsRun(worlds, steps) && k < |worlds[|steps|].reviewers|
    requires worlds[|steps|].reviewers[k].Away? && worlds[|steps|].section.None? && worlds[|steps|].job.state != Running
    ensures IsRun(worlds', steps') && worlds'[|steps'|] == last
    ensures last.catalog == Written(worlds[|steps|].catalog, write) && last.section.None?
    ensures last.job == (if worlds[|steps|].job.state == Completed then Job(AwaitingReview, None) else worlds[|steps|].job)
    ensures k < |last.reviewers| && last.reviewers[k].Away?
  {
    worlds', steps', last := Extend(worlds, steps, ByReview(k, OpenJob));
    worlds', steps', last := Extend(worlds', steps', ByReview(k, Enter));
    worlds', steps', last := Extend(worlds', steps', ByReview(k, ReopenBeforeWrite));
    worlds', steps', last := Extend(worlds', steps', ByReview(k, WriteCatalog(write)));
    worlds', steps', last := Extend(worlds', steps', ByReview(k, Reread));
    worlds', steps', last := Extend(worlds', steps', ByReview(k, ReopenAfterWrite));
  }

  /** Whatever job a render finds, it can bring it to where the gate is read, unless it was never directed. */
  lemma RenderCanReachTheGate(worlds: seq<World>, steps: seq<Step>, script: seq<Segment>)
    returns (worlds': seq<World>, steps': seq<Step>, last: World)
    requires IsRun(worlds, steps) && worlds[|steps|].renderer.Resting? && worlds[|steps|].job.state != Pending
    requires Opens(worlds[|steps|].catalog, script)
    ensures IsRun(worlds', steps') && worlds'[|steps'|] == last
    ensures last.renderer == Gated(GateOf(worlds[|steps|].catalog, script)) && last.catalog == worlds[|steps|].catalog
  {
    worlds', steps', last := Extend(worlds, steps, ByRender(LoadJob));
    if last.renderer.job.state == Completed {
      worlds', steps', last := Extend(worlds', steps', ByRender(ReopenStaleOutput));
    } else if last.renderer.job.state == Running {
      worlds', steps', last := Extend(worlds', steps', ByRender(AbandonRunning));
    }
    worlds', steps', last := Extend(worlds', steps', ByRender(ReadGate(script)));
  }
}
