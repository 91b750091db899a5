/** The job aggregate, its snapshots and their validator (packages/domain/src/audiobook-job.ts). */
module AudiobookJob {
  import opened Wrappers
  import opened Text

  datatype State = Pending | Running | AwaitingReview | Abandoned | Failed | Completed

  datatype Stage = Extracting | Directing | Rendering | Assembling | Done

  datatype Direction = Direction(completedChapters: int, totalChapters: int, completedPassages: int, totalPassages: int)

  datatype Progress = Progress(
    currentChapterId: Option<string>,
    direction: Option<Direction>,
    completedSegments: int,
    totalSegments: int,
    latestMessage: string)

  /** A stable segment ID, read as its parts. */
  datatype SegmentId = SegmentId(bookId: string, chapter: nat, passage: nat, ordinal: nat)

  datatype Reason = UnresolvedSpeaker | MissingSpeakerVoice

  datatype Warning = Warning(segmentId: SegmentId, speakerId: Option<string>, voiceProfileId: string, reason: Reason,
                             speakerReason: Option<string>)

  datatype Snapshot = Snapshot(
    id: string,
    state: State,
    stage: Stage,
    commandIdentity: Option<string>,
    renderContract: Option<string>,
    catalogRevision: Option<int>,
    bookId: Option<string>,
    progress: Progress,
    warnings: seq<Warning>,
    error: Option<string>,
    failureDiagnosticPath: Option<string>)

  /** The messages the aggregate writes itself. */
  datatype Phrase =
    | Waiting | Extraction | Retrying | Recovering | WasAbandoned | RetryingExtraction | ContinuingDirection
    | ContinuingRendering | Reassembling | DirectingChapters | UnderReview | RenderingApproved | RenderingSpeech
    | AssemblingBook | Finished

  /** A text that starts with a letter. */
  function Words(text: string): (r: string)
    requires text != "" && !IsSpace(text[0])
    ensures r == text && !Blank(r)
  {
    text
  }

  function Say(phrase: Phrase): (r: string)
    ensures !Blank(r)
  {
    match phrase
    case Waiting => Words("Waiting to start")
    case Extraction => Words("Extracting EPUB")
    case Retrying => Words("Retrying from EPUB extraction")
    case Recovering => Words("Recovering abandoned job" + " from EPUB extraction")
    case WasAbandoned => Words("Job marked abandoned")
    case RetryingExtraction => Words("Retrying EPUB extraction")
    case ContinuingDirection => Words("Continuing direction")
    case ContinuingRendering => Words("Continuing speech rendering")
    case Reassembling => Words("Reassembling from verified segment audio")
    case DirectingChapters => Words("Directing chapters")
    case UnderReview => Words("Awaiting fallback approval review")
    case RenderingApproved => Words("Rendering approved script")
    case RenderingSpeech => Words("Rendering speech")
    case AssemblingBook => Words("Assembling audiobook")
    case Finished => Words("Audiobook completed")
  }

  const MAX_SAFE: int := 0x1F_FFFF_FFFF_FFFF

  /** `Number.isSafeInteger`. */
  predicate Safe(n: int) {
    -MAX_SAFE <= n <= MAX_SAFE
  }

  // ---------------------------------------------------------------- digests and warnings

  predicate IsHexDigit(c: char) {
    '0' <= c <= '9' || 'a' <= c <= 'f' || 'A' <= c <= 'F'
  }

  predicate IsSha256(s: string) {
    |s| == 64 && forall i | 0 <= i < |s| :: IsHexDigit(s[i])
  }

  function LowerChar(c: char): char {
    if 'A' <= c <= 'Z' then c - 'A' + 'a' else c
  }

  function Lower(s: string): (r: string)
    ensures |r| == |s|
  {
    seq(|s|, i requires 0 <= i < |s| => LowerChar(s[i]))
  }

  /** A digest as the aggregate stores it. */
  predicate IsNormalSha256(s: string) {
    IsSha256(s) && Lower(s) == s
  }

  lemma LowerIsNormal(s: string)
    requires IsSha256(s)
    ensures IsNormalSha256(Lower(s))
  {
  }

  predicate Contains(s: string, part: string) {
    exists i | 0 <= i <= |s| :: part <= s[i..]
  }

  predicate GoodWarning(w: Warning, bookId: Option<string>) {
    && bookId == Some(w.segmentId.bookId)
    && w.segmentId.chapter > 0 && w.segmentId.passage > 0 && w.segmentId.ordinal > 0
    && !Blank(w.voiceProfileId)
    && (match w.reason
        case UnresolvedSpeaker => w.speakerId.None?
        case MissingSpeakerVoice => w.speakerId.Some? && !Blank(w.speakerId.value))
    && (w.speakerReason.Some? ==> !Blank(w.speakerReason.value) && |w.speakerReason.value| <= 240)
  }

  // ---------------------------------------------------------------- the snapshot validator

  predicate GoodDirection(d: Direction) {
    && Safe(d.completedChapters) && Safe(d.totalChapters) && Safe(d.completedPassages) && Safe(d.totalPassages)
    && 0 <= d.completedChapters <= d.totalChapters && d.totalChapters >= 1
    && 0 <= d.completedPassages <= d.totalPassages && d.totalPassages >= d.totalChapters
  }

  predicate GoodProgress(p: Progress) {
    && (p.direction.Some? ==> GoodDirection(p.direction.value))
    && Safe(p.completedSegments) && Safe(p.totalSegments) && 0 <= p.completedSegments <= p.totalSegments
    && !Blank(p.latestMessage)
    && (p.currentChapterId.Some? ==> !Blank(p.currentChapterId.value))
  }

  predicate DirectionComplete(direction: Option<Direction>) {
    direction.Some? ==>
      && direction.value.completedChapters == direction.value.totalChapters
      && direction.value.completedPassages == direction.value.totalPassages
  }

  predicate NoSegments(p: Progress) {
    p.completedSegments == 0 && p.totalSegments == 0
  }

  /** `validateSnapshotLifecycle`. */
  predicate GoodLifecycle(s: Snapshot) {
    var p := s.progress;
    match s.state
    case Pending =>
      && s.stage == Extracting && s.bookId.None? && p.direction.None? && NoSegments(p)
      && p.currentChapterId.None? && p.latestMessage == Say(Waiting) && s.warnings == []
    case AwaitingReview =>
      && s.stage == Directing && s.bookId.Some? && DirectionComplete(p.direction) && NoSegments(p)
      && p.currentChapterId.None? && p.latestMessage == Say(UnderReview)
    case _ =>
      && (s.state == Failed ==> Some(p.latestMessage) == s.error)
      && (s.state == Abandoned ==> p.latestMessage == Say(WasAbandoned))
      && match s.stage
         case Extracting =>
           && s.state != Completed && p.direction.None? && NoSegments(p) && p.currentChapterId.None? && s.warnings == []
         case Directing => s.state != Completed && s.bookId.Some? && NoSegments(p)
         case Rendering => s.state != Completed && s.bookId.Some? && p.totalSegments >= 1
         case Assembling =>
           && s.state != Completed && s.bookId.Some? && p.totalSegments >= 1
           && p.completedSegments == p.totalSegments && p.currentChapterId.None?
         case Done =>
           && s.state == Completed && s.commandIdentity.Some? && s.bookId.Some? && p.totalSegments >= 1
           && p.completedSegments == p.totalSegments && p.currentChapterId.None? && p.latestMessage == Say(Finished)
  }

  predicate GoodWarnings(warnings: seq<Warning>, bookId: Option<string>) {
    && (forall i | 0 <= i < |warnings| :: GoodWarning(warnings[i], bookId))
    && (forall i | 0 <= i < |warnings| :: forall j | 0 <= j < i :: warnings[j].segmentId != warnings[i].segmentId)
  }

  /** `validateSnapshot`: the shapes `reconstitute` accepts. */
  predicate Validates(s: Snapshot) {
    && !Blank(s.id)
    && (s.commandIdentity.Some? ==> IsSha256(s.commandIdentity.value))
    && (s.renderContract.Some? ==> IsSha256(s.renderContract.value))
    && (s.state != Pending ==> s.commandIdentity.Some?)
    && (s.bookId.Some? ==> !Blank(s.bookId.value))
    && (s.stage == Done <==> s.state == Completed)
    && (s.catalogRevision.Some? <==> s.state == Completed)
    && (s.catalogRevision.Some? ==> Safe(s.catalogRevision.value) && s.catalogRevision.value >= 0)
    && (s.error.Some? <==> s.state == Failed)
    && s.error != Some("")
    && (s.failureDiagnosticPath.Some? ==>
          && s.state == Failed && !Blank(s.failureDiagnosticPath.value)
          && s.error.Some? && Contains(s.error.value, s.failureDiagnosticPath.value))
    && GoodProgress(s.progress)
    && GoodLifecycle(s)
    && GoodWarnings(s.warnings, s.bookId)
  }

  function Reconstituted(s: Snapshot): Option<Snapshot> {
    if !Validates(s) then None
    else Some(s.(commandIdentity := if s.commandIdentity.Some? then Some(Lower(s.commandIdentity.value)) else None,
                 renderContract := if s.renderContract.Some? then Some(Lower(s.renderContract.value)) else None))
  }

  // ---------------------------------------------------------------- transitions

  /** What the application found durable before it takes over an interrupted stage. */
  datatype Checkpoint =
    | AtExtracting
    | AtDirecting(direction: Direction)
    | AtRendering(completedSegments: int, totalSegments: int)
    | AtAssembling(completedSegments: int, totalSegments: int)

  /** One method call. `outputFits` stands for the checks on the finished files. */
  datatype Call =
    | BindCommand(identity: string)
    | BindRenderContract(contract: string)
    | StartJob
    | Retry
    | MarkAbandoned
    | RecoverAbandoned
    | ResumeFailedStage(checkpoint: Checkpoint)
    | AttachBook(bookId: string)
    | BeginDirection(totalChapters: int, totalPassages: int)
    | RecordDirectionProgress(chapterId: string, completedChapters: int, completedPassages: int, message: string)
    | AwaitReview
    | ResumeApprovedRender
    | ReopenForReview
    | BeginRendering(totalSegments: int, verifiedSegments: int)
    | BeginAssembly
    | Report(current: Option<string>, message: string)
    | RecordSegmentCompleted(segmentId: string)
    | AddFallbackWarning(warning: Warning)
    | Complete(outputFits: bool, catalogRevision: int)
    | Fail(error: string, diagnosticPath: Option<string>)

  function NewJob(id: string): Snapshot {
    Snapshot(id, Pending, Extracting, None, None, None, None, Progress(None, None, 0, 0, Say(Waiting)), [], None, None)
  }

  function Fresh(message: string): Progress {
    Progress(None, None, 0, 0, message)
  }

  function SegmentMessage(segmentId: string): (r: string)
    ensures !Blank(r)
  {
    Words("Completed segment " + segmentId)
  }

  /** `report`, the only way a running job gets a message. */
  function Reported(s: Snapshot, chapterId: Option<string>, message: string): Option<Snapshot> {
    if s.state != Running || Blank(message)
       || (chapterId.Some? && (Blank(chapterId.value) || (s.stage != Directing && s.stage != Rendering)))
    then None
    else Some(s.(progress := s.progress.(currentChapterId := chapterId, latestMessage := message)))
  }

  function NextStage(stage: Stage): Option<Stage> {
    match stage
    case Extracting => Some(Directing)
    case Directing => Some(Rendering)
    case Rendering => Some(Assembling)
    case Assembling => Some(Done)
    case Done => None
  }

  function Advanced(s: Snapshot, to: Stage, message: string): Option<Snapshot> {
    if s.state != Running || NextStage(s.stage) != Some(to) then None else Reported(s.(stage := to), None, message)
  }

  function Restarted(s: Snapshot, message: string): Snapshot {
    s.(state := Running, stage := Extracting, progress := Fresh(message), warnings := [], catalogRevision := None,
       error := None, failureDiagnosticPath := None)
  }

  function StageOf(checkpoint: Checkpoint): Stage {
    match checkpoint
    case AtExtracting => Extracting
    case AtDirecting(_) => Directing
    case AtRendering(_, _) => Rendering
    case AtAssembling(_, _) => Assembling
  }

  predicate GoodCheckpoint(s: Snapshot, checkpoint: Checkpoint) {
    match checkpoint
    case AtExtracting => true
    case AtDirecting(direction) => s.bookId.Some? && GoodDirection(direction)
    case AtRendering(completed, total) =>
      s.bookId.Some? && Safe(completed) && Safe(total) && total >= 1 && 0 <= completed <= total
    case AtAssembling(completed, total) =>
      s.bookId.Some? && Safe(completed) && Safe(total) && total >= 1 && completed == total
  }

  /** The counts that the aggregate puts into these messages are dropped. */
  function CheckpointProgress(p: Progress, checkpoint: Checkpoint): Progress {
    match checkpoint
    case AtExtracting => Fresh(Say(RetryingExtraction))
    case AtDirecting(direction) => Progress(None, Some(direction), 0, 0, Say(ContinuingDirection))
    case AtRendering(completed, total) => Progress(None, p.direction, completed, total, Say(ContinuingRendering))
    case AtAssembling(completed, total) => Progress(None, p.direction, completed, total, Say(Reassembling))
  }

  function Resumed(s: Snapshot, checkpoint: Checkpoint): Option<Snapshot> {
    if (s.state != Failed && s.state != Abandoned) || StageOf(checkpoint) != s.stage || !GoodCheckpoint(s, checkpoint)
    then None
    else Some(s.(state := Running, progress := CheckpointProgress(s.progress, checkpoint),
                 warnings := if checkpoint.AtExtracting? || checkpoint.AtDirecting? then [] else s.warnings,
                 catalogRevision := None, error := None, failureDiagnosticPath := None))
  }

  predicate RecordsDirection(s: Snapshot, chapterId: string, chapters: int, passages: int, message: string) {
    && s.state == Running && s.stage == Directing && s.progress.direction.Some? && !Blank(chapterId) && !Blank(message)
    && Safe(chapters) && Safe(passages)
    && var d := s.progress.direction.value;
       d.completedChapters <= chapters <= d.totalChapters && d.completedPassages <= passages <= d.totalPassages
  }

  function WithDirection(s: Snapshot, chapterId: string, chapters: int, passages: int, message: string): Snapshot
    requires s.progress.direction.Some?
  {
    var d := s.progress.direction.value.(completedChapters := chapters, completedPassages := passages);
    s.(progress := s.progress.(currentChapterId := Some(chapterId), direction := Some(d), latestMessage := message))
  }

  function Reopened(s: Snapshot): Option<Snapshot> {
    if s.state != Completed then None
    else Some(s.(state := AwaitingReview, stage := Directing, catalogRevision := None, error := None,
                 failureDiagnosticPath := None, progress := Progress(None, s.progress.direction, 0, 0, Say(UnderReview))))
  }

  function BegunRendering(s: Snapshot, total: int, verified: int): Option<Snapshot> {
    if !Safe(total) || total < 1 || !Safe(verified) || !(0 <= verified <= total) then None
    else
      var advanced := Advanced(s, Rendering, Say(RenderingSpeech));
      if advanced.None? then None
      else Some(advanced.value.(progress := advanced.value.progress.(completedSegments := verified, totalSegments := total)))
  }

  function BegunAssembly(s: Snapshot): Option<Snapshot> {
    if s.progress.completedSegments != s.progress.totalSegments then None
    else Advanced(s, Assembling, Say(AssemblingBook))
  }

  function SegmentCompleted(s: Snapshot, segmentId: string): Option<Snapshot> {
    if s.state != Running || s.stage != Rendering || Blank(segmentId)
       || s.progress.completedSegments >= s.progress.totalSegments
    then None
    else Some(s.(progress := s.progress.(completedSegments := s.progress.completedSegments + 1,
                                         latestMessage := SegmentMessage(segmentId))))
  }

  function CompletedWith(s: Snapshot, outputFits: bool, revision: int): Option<Snapshot> {
    if !Safe(revision) || revision < 0 || s.state != Running || s.stage != Assembling || s.bookId.None?
       || s.progress.totalSegments < 1 || !outputFits
    then None
    else Some(s.(stage := Done, state := Completed, catalogRevision := Some(revision),
                 progress := s.progress.(currentChapterId := None, latestMessage := Say(Finished))))
  }

  /** The job after one call, or nothing when the call throws; a call that throws changes nothing. */
  function Apply(s: Snapshot, call: Call): Option<Snapshot> {
    match call
    case BindCommand(identity) =>
      if !IsSha256(identity)
         || (s.commandIdentity.Some? && s.commandIdentity != Some(Lower(identity)))
         || (s.state != Pending && s.commandIdentity.None?)
      then None
      else Some(s.(commandIdentity := Some(Lower(identity))))
    case BindRenderContract(contract) =>
      if !IsSha256(contract) || (s.renderContract.Some? && s.renderContract != Some(Lower(contract))) then None
      else Some(s.(renderContract := Some(Lower(contract))))
    case StartJob =>
      if s.state != Pending || s.commandIdentity.None? then None else Reported(s.(state := Running), None, Say(Extraction))
    case Retry => if s.state != Failed then None else Some(Restarted(s, Say(Retrying)))
    case MarkAbandoned =>
      if s.state != Running then None
      else Some(s.(state := Abandoned, progress := s.progress.(latestMessage := Say(WasAbandoned))))
    case RecoverAbandoned =>
      if s.state != Abandoned then None else Some(Restarted(s, Say(Recovering)))
    case ResumeFailedStage(checkpoint) => Resumed(s, checkpoint)
    case AttachBook(bookId) =>
      if s.state != Running || s.stage != Extracting || Blank(bookId) || (s.bookId.Some? && s.bookId != Some(bookId)) then None
      else Some(s.(bookId := Some(bookId)))
    case BeginDirection(chapters, passages) =>
      if s.state != Running || s.stage != Extracting || s.bookId.None?
         || !Safe(chapters) || chapters < 1 || !Safe(passages) || passages < chapters
      then None
      else
        var advanced := Advanced(s, Directing, Say(DirectingChapters));
        if advanced.None? then None
        else Some(advanced.value.(progress := advanced.value.progress.(direction := Some(Direction(0, chapters, 0, passages)))))
    case RecordDirectionProgress(chapterId, chapters, passages, message) =>
      if !RecordsDirection(s, chapterId, chapters, passages, message) then None
      else Some(WithDirection(s, chapterId, chapters, passages, message))
    case AwaitReview =>
      if s.state != Running || s.stage != Directing || s.bookId.None? || s.progress.direction.None?
         || !DirectionComplete(s.progress.direction)
      then None
      else Some(s.(state := AwaitingReview,
                   progress := s.progress.(currentChapterId := None, latestMessage := Say(UnderReview))))
    case ResumeApprovedRender =>
      if s.state != AwaitingReview then None else Reported(s.(state := Running), None, Say(RenderingApproved))
    case ReopenForReview => Reopened(s)
    case BeginRendering(total, verified) => BegunRendering(s, total, verified)
    case BeginAssembly => BegunAssembly(s)
    case Report(chapterId, message) => Reported(s, chapterId, message)
    case RecordSegmentCompleted(segmentId) => SegmentCompleted(s, segmentId)
    case AddFallbackWarning(warning) =>
      if s.state != Running || s.stage != Directing || !GoodWarning(warning, s.bookId) then None
      else if exists i | 0 <= i < |s.warnings| :: s.warnings[i].segmentId == warning.segmentId then Some(s)
      else Some(s.(warnings := s.warnings + [warning]))
    case Complete(outputFits, revision) => CompletedWith(s, outputFits, revision)
    case Fail(error, path) =>
      if s.state != Running || Blank(error) || (path.Some? && (Blank(path.value) || !Contains(error, path.value))) then None
      else Some(s.(state := Failed, error := Some(error), failureDiagnosticPath := path,
                   progress := s.progress.(latestMessage := error)))
  }

  // ---------------------------------------------------------------- what the use cases keep

  predicate Normal(identity: Option<string>) {
    identity.Some? ==> IsNormalSha256(identity.value)
  }

  /** A validated snapshot whose script was completely directed before anything was rendered. */
  predicate Sound(s: Snapshot) {
    && Validates(s) && Normal(s.commandIdentity) && Normal(s.renderContract)
    && (s.stage in {Rendering, Assembling, Done} ==> DirectionComplete(s.progress.direction))
  }

  /**
   * The use cases begin rendering only through `resumeApprovedRender`, which finds the direction
   * complete; every other call may come in any order.
   */
  predicate Disciplined(s: Snapshot, call: Call) {
    call.BeginRendering? ==> DirectionComplete(s.progress.direction)
  }

  lemma BindingKeepsSound(s: Snapshot, call: Call)
    requires Sound(s) && (call.BindCommand? || call.BindRenderContract?) && Apply(s, call).Some?
    ensures Sound(Apply(s, call).value)
  {
    match call
    case BindCommand(identity) => LowerIsNormal(identity);
    case BindRenderContract(contract) => LowerIsNormal(contract);
  }

  lemma ReportingKeepsSound(s: Snapshot, current: Option<string>, message: string)
    requires Sound(s) && Reported(s, current, message).Some? && s.state == Running
    requires s.stage in {Extracting, Assembling} ==> current.None?
    ensures Sound(Reported(s, current, message).value)
  {
  }

  lemma StoppingKeepsSound(s: Snapshot, call: Call)
    requires Sound(s) && (call.MarkAbandoned? || call.Fail?) && Apply(s, call).Some?
    ensures Sound(Apply(s, call).value)
  {
  }

  lemma RestartingKeepsSound(s: Snapshot, call: Call)
    requires Sound(s) && (call.Retry? || call.RecoverAbandoned?) && Apply(s, call).Some?
    ensures Sound(Apply(s, call).value)
  {
  }

  lemma ResumingKeepsSound(s: Snapshot, checkpoint: Checkpoint)
    requires Sound(s) && Resumed(s, checkpoint).Some?
    ensures Sound(Resumed(s, checkpoint).value)
  {
  }

  lemma StartingKeepsSound(s: Snapshot, call: Call)
    requires Sound(s) && (call.StartJob? || call.ResumeApprovedRender?) && Apply(s, call).Some?
    ensures Sound(Apply(s, call).value)
  {
  }

  lemma DirectingKeepsSound(s: Snapshot, call: Call)
    requires Sound(s) && (call.AttachBook? || call.BeginDirection? || call.RecordDirectionProgress? || call.AwaitReview?)
    requires Apply(s, call).Some?
    ensures Sound(Apply(s, call).value)
  {
  }

  lemma WarningKeepsSound(s: Snapshot, warning: Warning)
    requires Sound(s) && Apply(s, AddFallbackWarning(warning)).Some?
    ensures Sound(Apply(s, AddFallbackWarning(warning)).value)
  {
    if forall i | 0 <= i < |s.warnings| :: s.warnings[i].segmentId != warning.segmentId {
      assert GoodWarnings(s.warnings + [warning], s.bookId);
    }
  }

  lemma RenderingKeepsSound(s: Snapshot, total: int, verified: int)
    requires Sound(s) && DirectionComplete(s.progress.direction) && BegunRendering(s, total, verified).Some?
    ensures Sound(BegunRendering(s, total, verified).value)
  {
  }

  lemma AssemblingKeepsSound(s: Snapshot)
    requires Sound(s) && BegunAssembly(s).Some?
    ensures Sound(BegunAssembly(s).value)
  {
  }

  lemma SegmentKeepsSound(s: Snapshot, segmentId: string)
    requires Sound(s) && SegmentCompleted(s, segmentId).Some?
    ensures Sound(SegmentCompleted(s, segmentId).value)
  {
  }

  lemma CompletingKeepsSound(s: Snapshot, outputFits: bool, revision: int)
    requires Sound(s) && CompletedWith(s, outputFits, revision).Some?
    ensures Sound(CompletedWith(s, outputFits, revision).value)
  {
  }

  lemma ReopeningKeepsSound(s: Snapshot)
    requires Sound(s) && Reopened(s).Some?
    ensures Sound(Reopened(s).value)
  {
  }

  /** The calls that start, stop, take over or reopen a job. */
  predicate Restarts(call: Call) {
    call.StartJob? || call.Retry? || call.MarkAbandoned? || call.RecoverAbandoned? || call.ResumeFailedStage?
    || call.ResumeApprovedRender? || call.ReopenForReview? || call.Fail?
  }

  lemma RestartKeepsSound(s: Snapshot, call: Call)
    requires Sound(s) && Restarts(call) && Apply(s, call).Some?
    ensures Sound(Apply(s, call).value)
  {
    match call
    case StartJob => StartingKeepsSound(s, call);
    case Retry => RestartingKeepsSound(s, call);
    case MarkAbandoned => StoppingKeepsSound(s, call);
    case RecoverAbandoned => RestartingKeepsSound(s, call);
    case ResumeFailedStage(checkpoint) => ResumingKeepsSound(s, checkpoint);
    case ResumeApprovedRender => StartingKeepsSound(s, call);
    case ReopenForReview => ReopeningKeepsSound(s);
    case Fail(_, _) => StoppingKeepsSound(s, call);
  }

  predicate IsRenderCall(call: Call) {
    call.BeginRendering? || call.BeginAssembly? || call.RecordSegmentCompleted? || call.Complete?
  }

  lemma RenderCallKeepsSound(s: Snapshot, call: Call)
    requires Sound(s) && IsRenderCall(call) && Disciplined(s, call) && Apply(s, call).Some?
    ensures Sound(Apply(s, call).value)
  {
    match call
    case BeginRendering(total, verified) => RenderingKeepsSound(s, total, verified);
    case BeginAssembly => AssemblingKeepsSound(s);
    case RecordSegmentCompleted(segmentId) => SegmentKeepsSound(s, segmentId);
    case Complete(outputFits, revision) => CompletingKeepsSound(s, outputFits, revision);
  }

  predicate IsDirectionCall(call: Call) {
    call.AttachBook? || call.BeginDirection? || call.RecordDirectionProgress? || call.AwaitReview?
  }

  lemma NotingKeepsSound(s: Snapshot, call: Call)
    requires Sound(s) && !Restarts(call) && !IsRenderCall(call) && !IsDirectionCall(call) && Apply(s, call).Some?
    ensures Sound(Apply(s, call).value)
  {
    match call
    case BindCommand(_) => BindingKeepsSound(s, call);
    case BindRenderContract(_) => BindingKeepsSound(s, call);
    case Report(current, message) => ReportingKeepsSound(s, current, message);
    case AddFallbackWarning(warning) => WarningKeepsSound(s, warning);
  }

  lemma CallKeepsSound(s: Snapshot, call: Call)
    requires Sound(s) && Disciplined(s, call) && Apply(s, call).Some?
    ensures Sound(Apply(s, call).value)
  {
    if Restarts(call) {
      RestartKeepsSound(s, call);
    } else if IsRenderCall(call) {
      RenderCallKeepsSound(s, call);
    } else if IsDirectionCall(call) {
      DirectingKeepsSound(s, call);
    } else {
      NotingKeepsSound(s, call);
    }
  }

  // ---------------------------------------------------------------- whole histories

  /** The job after the calls; a call that throws is skipped, as its callers do. */
  function Lives(s: Snapshot, calls: seq<Call>): Snapshot
    decreases |calls|
  {
    if calls == [] then s else
      var after := Apply(s, calls[0]);
      Lives(if after.Some? then after.value else s, calls[1..])
  }

  /** Rendering is only begun on a completely directed script. */
  predicate DisciplinedAll(s: Snapshot, calls: seq<Call>)
    decreases |calls|
  {
    calls == [] || (
      && Disciplined(s, calls[0])
      && var after := Apply(s, calls[0]);
         DisciplinedAll(if after.Some? then after.value else s, calls[1..]))
  }

  /**
   * Every snapshot a disciplined history can save is accepted by the validator, and reconstituting
   * it gives the same job back, including jobs reopened for review after completion.
   */
  lemma {:induction false} EverySnapshotRoundTrips(s: Snapshot, calls: seq<Call>)
    requires Sound(s) && DisciplinedAll(s, calls)
    ensures Validates(Lives(s, calls)) && Reconstituted(Lives(s, calls)) == Some(Lives(s, calls))
    ensures Sound(Lives(s, calls))
    decreases |calls|
  {
    if calls != [] {
      var after := Apply(s, calls[0]);
      if after.Some? {
        CallKeepsSound(s, calls[0]);
        EverySnapshotRoundTrips(after.value, calls[1..]);
      } else {
        EverySnapshotRoundTrips(s, calls[1..]);
      }
    }
  }

  lemma NewJobIsSound(id: string)
    requires !Blank(id)
    ensures Sound(NewJob(id))
  {
  }

  /** An approved render always finds the direction complete, so it may begin rendering. */
  lemma ApprovedRenderMayBegin(s: Snapshot, total: int, verified: int)
    requires Sound(s) && s.state == AwaitingReview && Safe(total) && total >= 1 && 0 <= verified <= total
    ensures var running := Reported(s.(state := Running), None, Say(RenderingApproved));
            && running.Some? && DirectionComplete(running.value.progress.direction)
            && BegunRendering(running.value, total, verified).Some?
  {
  }

  /**
   * A job that begins rendering before its direction is complete can be completed, but once it is
   * reopened its own validator refuses it: `beginRendering` alone is no guard.
   */
  lemma UndirectedRenderingIsUnreadable(s: Snapshot)
    returns (rendering: Snapshot, assembling: Snapshot, completed: Snapshot, reopened: Snapshot)
    requires s.state == Running && s.stage == Directing && s.bookId.Some? && !DirectionComplete(s.progress.direction)
    ensures BegunRendering(s, 1, 1) == Some(rendering) && BegunAssembly(rendering) == Some(assembling)
    ensures CompletedWith(assembling, true, 0) == Some(completed) && Reopened(completed) == Some(reopened)
    ensures completed.state == Completed && !Validates(reopened)
  {
    rendering := BegunRendering(s, 1, 1).value;
    assembling := BegunAssembly(rendering).value;
    completed := CompletedWith(assembling, true, 0).value;
    reopened := Reopened(completed).value;
  }

  // ---------------------------------------------------------------- every job can be finished

  lemma CallThen(s: Snapshot, call: Call, rest: seq<Call>)
    requires Apply(s, call).Some? && Disciplined(s, call) && DisciplinedAll(Apply(s, call).value, rest)
    ensures DisciplinedAll(s, [call] + rest) && Lives(s, [call] + rest) == Lives(Apply(s, call).value, rest)
  {
    assert ([call] + rest)[1..] == rest;
  }

  /** The calls finish the job without breaking discipline. */
  predicate Finishes(s: Snapshot, calls: seq<Call>) {
    DisciplinedAll(s, calls) && Lives(s, calls).state == Completed
  }

  lemma AssemblyFinishes(s: Snapshot, revision: int) returns (calls: seq<Call>)
    requires s.state == Running && s.stage == Assembling && s.bookId.Some? && s.progress.totalSegments >= 1
    requires Safe(revision) && revision >= 0
    ensures Finishes(s, calls)
  {
    CallThen(s, Call.Complete(true, revision), []);
    calls := [Call.Complete(true, revision)] + [];
  }

  lemma RenderingFinishes(s: Snapshot, revision: int) returns (calls: seq<Call>)
    requires s.state == Running && s.stage == Rendering && s.bookId.Some?
    requires s.progress.totalSegments == 1 && s.progress.completedSegments == 0 && Safe(revision) && revision >= 0
    ensures Finishes(s, calls)
  {
    var record := Call.RecordSegmentCompleted(Words("segment"));
    var recorded := Apply(s, record).value;
    var assembling := Apply(recorded, Call.BeginAssembly).value;
    calls := AssemblyFinishes(assembling, revision);
    CallThen(recorded, Call.BeginAssembly, calls);
    calls := [Call.BeginAssembly] + calls;
    CallThen(s, record, calls);
    calls := [record] + calls;
  }

  lemma ReviewFinishes(s: Snapshot, revision: int) returns (calls: seq<Call>)
    requires s.state == AwaitingReview && s.stage == Directing && s.bookId.Some? && DirectionComplete(s.progress.direction)
    requires Safe(revision) && revision >= 0
    ensures Finishes(s, calls)
  {
    var running := Apply(s, Call.ResumeApprovedRender).value;
    var rendering := Apply(running, Call.BeginRendering(1, 0)).value;
    calls := RenderingFinishes(rendering, revision);
    CallThen(running, Call.BeginRendering(1, 0), calls);
    calls := [Call.BeginRendering(1, 0)] + calls;
    CallThen(s, Call.ResumeApprovedRender, calls);
    calls := [Call.ResumeApprovedRender] + calls;
  }

  lemma DirectionFinishes(s: Snapshot, revision: int) returns (calls: seq<Call>)
    requires s.state == Running && s.stage == Directing && s.bookId.Some?
    requires s.progress.direction == Some(Direction(0, 1, 0, 1)) && Safe(revision) && revision >= 0
    ensures Finishes(s, calls)
  {
    var record := Call.RecordDirectionProgress(Words("chapter"), 1, 1, Words("directed"));
    var recorded := Apply(s, record).value;
    var reviewed := Apply(recorded, Call.AwaitReview).value;
    calls := ReviewFinishes(reviewed, revision);
    CallThen(recorded, Call.AwaitReview, calls);
    calls := [Call.AwaitReview] + calls;
    CallThen(s, record, calls);
    calls := [record] + calls;
  }

  lemma ExtractionFinishes(s: Snapshot, revision: int) returns (calls: seq<Call>)
    requires s.state == Running && s.stage == Extracting && (s.bookId.Some? ==> !Blank(s.bookId.value))
    requires Safe(revision) && revision >= 0
    ensures Finishes(s, calls)
  {
    var attach := Call.AttachBook(if s.bookId.Some? then s.bookId.value else Words("book"));
    var attached := Apply(s, attach).value;
    var directing := Apply(attached, Call.BeginDirection(1, 1)).value;
    calls := DirectionFinishes(directing, revision);
    CallThen(attached, Call.BeginDirection(1, 1), calls);
    calls := [Call.BeginDirection(1, 1)] + calls;
    CallThen(s, attach, calls);
    calls := [attach] + calls;
  }

  lemma StoppedJobFinishes(s: Snapshot, revision: int) returns (calls: seq<Call>)
    requires s.state in {Failed, Abandoned} && (s.bookId.Some? ==> !Blank(s.bookId.value)) && Safe(revision) && revision >= 0
    ensures Finishes(s, calls)
  {
    var restart := if s.state == Failed then Call.Retry else Call.RecoverAbandoned;
    calls := ExtractionFinishes(Apply(s, restart).value, revision);
    CallThen(s, restart, calls);
    calls := [restart] + calls;
  }

  lemma NewJobFinishes(s: Snapshot, identity: string, revision: int) returns (calls: seq<Call>)
    requires s.state == Pending && s.stage == Extracting && s.bookId.None? && IsSha256(identity) && Safe(revision) && revision >= 0
    ensures Finishes(s, calls)
  {
    var bind := Call.BindCommand(identity);
    var bound := if s.commandIdentity.None? then Apply(s, bind).value else s;
    calls := ExtractionFinishes(Apply(bound, Call.StartJob).value, revision);
    CallThen(bound, Call.StartJob, calls);
    calls := [Call.StartJob] + calls;
    if s.commandIdentity.None? {
      CallThen(s, bind, calls);
      calls := [bind] + calls;
    }
  }

  /** No readable job is a dead end: from each of them calls of the use cases lead to completion. */
  lemma EveryJobCanBeFinished(s: Snapshot, identity: string, revision: int) returns (calls: seq<Call>)
    requires Sound(s) && IsSha256(identity) && Safe(revision) && revision >= 0
    ensures Finishes(s, calls)
  {
    match s.state
    case Completed => calls := [];
    case Pending => calls := NewJobFinishes(s, identity, revision);
    case AwaitingReview => calls := ReviewFinishes(s, revision);
    case Running =>
      calls := StoppedJobFinishes(Apply(s, Call.MarkAbandoned).value, revision);
      CallThen(s, Call.MarkAbandoned, calls);
      calls := [Call.MarkAbandoned] + calls;
    case _ => calls := StoppedJobFinishes(s, revision);
  }

  /** A warning about a segment is on the list afterwards, and no earlier one is lost. */
  lemma WarningIsKept(s: Snapshot, warning: Warning)
    requires s.state == Running && s.stage == Directing && GoodWarning(warning, s.bookId)
    ensures Apply(s, AddFallbackWarning(warning)).Some?
    ensures var after := Apply(s, AddFallbackWarning(warning)).value.warnings;
            s.warnings <= after && exists i | 0 <= i < |after| :: after[i].segmentId == warning.segmentId
  {
    var after := Apply(s, AddFallbackWarning(warning)).value.warnings;
    if after != s.warnings {
      assert after[|s.warnings|] == warning;
    }
  }

  // ---------------------------------------------------------------- the aggregate

  /** The call succeeded with the state `Apply` gives, or threw and changed nothing. */
  predicate Made(before: Snapshot, call: Call, ok: bool, after: Snapshot) {
    match Apply(before, call)
    case None => !ok && after == before
    case Some(made) => ok && after == made
  }

  /** A property of snapshots that every disciplined call keeps. */
  ghost predicate Closed(accepts: Snapshot -> bool) {
    forall s: Snapshot, call: Call | accepts(s) && Disciplined(s, call) && Apply(s, call).Some? :: accepts(Apply(s, call).value)
  }

  lemma MadeKeeps(accepts: Snapshot -> bool, before: Snapshot, call: Call, ok: bool, after: Snapshot)
    requires Closed(accepts) && accepts(before) && Disciplined(before, call) && Made(before, call, ok, after)
    ensures accepts(after)
  {
  }

  /** Being readable by the validator is such a property. */
  lemma SoundIsClosed()
    ensures Closed((s: Snapshot) => Sound(s))
  {
    forall s: Snapshot, call: Call | Sound(s) && Disciplined(s, call) && Apply(s, call).Some?
      ensures Sound(Apply(s, call).value)
    {
      CallKeepsSound(s, call);
    }
  }

  class AudiobookJob {
    const id: string
    var state: State
    var stage: Stage
    var commandIdentity: Option<string>
    var renderContract: Option<string>
    var catalogRevision: Option<int>
    var bookId: Option<string>
    var progress: Progress
    var warnings: seq<Warning>
    var error: Option<string>
    var failureDiagnosticPath: Option<string>

    function TakeSnapshot(): Snapshot
      reads this
    {
      Snapshot(id, state, stage, commandIdentity, renderContract, catalogRevision, bookId, progress, warnings, error,
               failureDiagnosticPath)
    }

    constructor (id: string)
      ensures TakeSnapshot() == NewJob(id)
    {
      this.id := id;
      state, stage := Pending, Extracting;
      commandIdentity, renderContract, catalogRevision, bookId := None, None, None, None;
      progress, warnings := Fresh(Say(Waiting)), [];
      error, failureDiagnosticPath := None, None;
    }

    constructor Reconstitute(s: Snapshot)
      requires Validates(s)
      ensures Some(TakeSnapshot()) == Reconstituted(s)
    {
      id := s.id;
      state, stage := s.state, s.stage;
      commandIdentity := if s.commandIdentity.Some? then Some(Lower(s.commandIdentity.value)) else None;
      renderContract := if s.renderContract.Some? then Some(Lower(s.renderContract.value)) else None;
      catalogRevision, bookId, progress, warnings := s.catalogRevision, s.bookId, s.progress, s.warnings;
      error, failureDiagnosticPath := s.error, s.failureDiagnosticPath;
    }

    method BindCommand(identity: string) returns (ok: bool)
      modifies this
      ensures Made(old(TakeSnapshot()), Call.BindCommand(identity), ok, TakeSnapshot())
    {
      if !IsSha256(identity) { return false; }
      var normalized := Lower(identity);
      if commandIdentity.Some? && commandIdentity.value != normalized { return false; }
      if state != Pending && commandIdentity.None? { return false; }
      commandIdentity := Some(normalized);
      return true;
    }

    method BindRenderContract(contract: string) returns (ok: bool)
      modifies this
      ensures Made(old(TakeSnapshot()), Call.BindRenderContract(contract), ok, TakeSnapshot())
    {
      if !IsSha256(contract) { return false; }
      var normalized := Lower(contract);
      if renderContract.Some? && renderContract.value != normalized { return false; }
      renderContract := Some(normalized);
      return true;
    }

    method Start() returns (ok: bool)
      modifies this
      ensures Made(old(TakeSnapshot()), Call.StartJob, ok, TakeSnapshot())
    {
      if state != Pending || commandIdentity.None? { return false; }
      state := Running;
      ok := Report(None, Say(Extraction));
    }

    method ResetForRecovery(message: string)
      modifies this
      ensures TakeSnapshot() == Restarted(old(TakeSnapshot()), message)
    {
      state, stage, progress, warnings := Running, Extracting, Fresh(message), [];
      catalogRevision, error, failureDiagnosticPath := None, None, None;
    }

    method Retry() returns (ok: bool)
      modifies this
      ensures Made(old(TakeSnapshot()), Call.Retry, ok, TakeSnapshot())
    {
      if state != Failed { return false; }
      ResetForRecovery(Say(Retrying));
      return true;
    }

    method MarkAbandoned() returns (ok: bool)
      modifies this
      ensures Made(old(TakeSnapshot()), Call.MarkAbandoned, ok, TakeSnapshot())
    {
      if state != Running { return false; }
      state, progress := Abandoned, progress.(latestMessage := Say(WasAbandoned));
      return true;
    }

    method RecoverAbandoned() returns (ok: bool)
      modifies this
      ensures Made(old(TakeSnapshot()), Call.RecoverAbandoned, ok, TakeSnapshot())
    {
      if state != Abandoned { return false; }
      ResetForRecovery(Say(Recovering));
      return true;
    }

    method ResumeFailedStage(checkpoint: Checkpoint) returns (ok: bool)
      modifies this
      ensures match Resumed(old(TakeSnapshot()), checkpoint)
              case None => !ok && TakeSnapshot() == old(TakeSnapshot())
              case Some(made) => ok && TakeSnapshot() == made
    {
      if state != Failed && state != Abandoned { return false; }
      if StageOf(checkpoint) != stage || !GoodCheckpoint(TakeSnapshot(), checkpoint) { return false; }
      progress := CheckpointProgress(progress, checkpoint);
      if checkpoint.AtExtracting? || checkpoint.AtDirecting? { warnings := []; }
      state := Running;
      catalogRevision, error, failureDiagnosticPath := None, None, None;
      return true;
    }

    method AttachBook(book: string) returns (ok: bool)
      modifies this
      ensures Made(old(TakeSnapshot()), Call.AttachBook(book), ok, TakeSnapshot())
    {
      if state != Running || stage != Extracting || Blank(book) { return false; }
      if bookId.Some? && bookId.value != book { return false; }
      bookId := Some(book);
      return true;
    }

    method Advance(to: Stage, message: string) returns (ok: bool)
      requires !Blank(message)
      modifies this
      ensures match Advanced(old(TakeSnapshot()), to, message)
              case None => !ok && TakeSnapshot() == old(TakeSnapshot())
              case Some(made) => ok && TakeSnapshot() == made
    {
      if state != Running || NextStage(stage) != Some(to) { return false; }
      stage := to;
      ok := Report(None, message);
    }

    method BeginDirection(totalChapters: int, totalPassages: int) returns (ok: bool)
      modifies this
      ensures Made(old(TakeSnapshot()), Call.BeginDirection(totalChapters, totalPassages), ok, TakeSnapshot())
    {
      if state != Running || stage != Extracting || bookId.None? { return false; }
      if !Safe(totalChapters) || totalChapters < 1 || !Safe(totalPassages) || totalPassages < totalChapters { return false; }
      ok := Advance(Directing, Say(DirectingChapters));
      progress := progress.(direction := Some(Direction(0, totalChapters, 0, totalPassages)));
    }

    method RecordDirectionProgress(chapterId: string, chapters: int, passages: int, message: string) returns (ok: bool)
      modifies this
      ensures Made(old(TakeSnapshot()), Call.RecordDirectionProgress(chapterId, chapters, passages, message), ok, TakeSnapshot())
    {
      if !RecordsDirection(TakeSnapshot(), chapterId, chapters, passages, message) { return false; }
      var direction := progress.direction.value.(completedChapters := chapters, completedPassages := passages);
      progress := progress.(currentChapterId := Some(chapterId), direction := Some(direction), latestMessage := message);
      return true;
    }

    method AwaitReview() returns (ok: bool)
      modifies this
      ensures Made(old(TakeSnapshot()), Call.AwaitReview, ok, TakeSnapshot())
    {
      if state != Running || stage != Directing { return false; }
      if bookId.None? || progress.direction.None? || !DirectionComplete(progress.direction) { return false; }
      state := AwaitingReview;
      progress := progress.(currentChapterId := None, latestMessage := Say(UnderReview));
      return true;
    }

    method ResumeApprovedRender() returns (ok: bool)
      modifies this
      ensures Made(old(TakeSnapshot()), Call.ResumeApprovedRender, ok, TakeSnapshot())
    {
      if state != AwaitingReview { return false; }
      state := Running;
      ok := Report(None, Say(RenderingApproved));
    }

    method ReopenForReview() returns (ok: bool)
      modifies this
      ensures match Reopened(old(TakeSnapshot()))
              case None => !ok && TakeSnapshot() == old(TakeSnapshot())
              case Some(made) => ok && TakeSnapshot() == made
    {
      if state != Completed { return false; }
      state, stage := AwaitingReview, Directing;
      catalogRevision, error, failureDiagnosticPath := None, None, None;
      progress := Progress(None, progress.direction, 0, 0, Say(UnderReview));
      return true;
    }

    method BeginRendering(totalSegments: int, verifiedSegments: int) returns (ok: bool)
      modifies this
      ensures Made(old(TakeSnapshot()), Call.BeginRendering(totalSegments, verifiedSegments), ok, TakeSnapshot())
    {
      if !Safe(totalSegments) || totalSegments < 1 || !Safe(verifiedSegments)
         || verifiedSegments < 0 || verifiedSegments > totalSegments
      {
        return false;
      }
      ok := Advance(Rendering, Say(RenderingSpeech));
      if ok {
        progress := progress.(completedSegments := verifiedSegments, totalSegments := totalSegments);
      }
    }

    method BeginAssembly() returns (ok: bool)
      modifies this
      ensures Made(old(TakeSnapshot()), Call.BeginAssembly, ok, TakeSnapshot())
    {
      if progress.completedSegments != progress.totalSegments { return false; }
      ok := Advance(Assembling, Say(AssemblingBook));
    }

    method Report(chapterId: Option<string>, message: string) returns (ok: bool)
      modifies this
      ensures match Reported(old(TakeSnapshot()), chapterId, message)
              case None => !ok && TakeSnapshot() == old(TakeSnapshot())
              case Some(made) => ok && TakeSnapshot() == made
    {
      if state != Running || Blank(message) { return false; }
      if chapterId.Some? && (Blank(chapterId.value) || (stage != Directing && stage != Rendering)) { return false; }
      progress := progress.(currentChapterId := chapterId, latestMessage := message);
      return true;
    }

    method RecordSegmentCompleted(segmentId: string) returns (ok: bool)
      modifies this
      ensures Made(old(TakeSnapshot()), Call.RecordSegmentCompleted(segmentId), ok, TakeSnapshot())
    {
      if state != Running || stage != Rendering || Blank(segmentId) { return false; }
      if progress.completedSegments >= progress.totalSegments { return false; }
      progress := progress.(completedSegments := progress.completedSegments + 1, latestMessage := SegmentMessage(segmentId));
      return true;
    }

    method AddFallbackWarning(warning: Warning) returns (ok: bool)
      modifies this
      ensures Made(old(TakeSnapshot()), Call.AddFallbackWarning(warning), ok, TakeSnapshot())
    {
      if state != Running || stage != Directing || !GoodWarning(warning, bookId) { return false; }
      if exists i | 0 <= i < |warnings| :: warnings[i].segmentId == warning.segmentId { return true; }
      warnings := warnings + [warning];
      return true;
    }

    method Complete(outputFits: bool, revision: int) returns (ok: bool)
      modifies this
      ensures Made(old(TakeSnapshot()), Call.Complete(outputFits, revision), ok, TakeSnapshot())
    {
      if !Safe(revision) || revision < 0 { return false; }
      if state != Running || stage != Assembling { return false; }
      if bookId.None? || progress.totalSegments < 1 || !outputFits { return false; }
      stage, state, catalogRevision := Done, Completed, Some(revision);
      progress := progress.(currentChapterId := None, latestMessage := Say(Finished));
      return true;
    }

    method Fail(message: string, diagnosticPath: Option<string>) returns (ok: bool)
      modifies this
      ensures Made(old(TakeSnapshot()), Call.Fail(message, diagnosticPath), ok, TakeSnapshot())
    {
      if state != Running || Blank(message) { return false; }
      if diagnosticPath.Some? && (Blank(diagnosticPath.value) || !Contains(message, diagnosticPath.value)) { return false; }
      state, error, failureDiagnosticPath := Failed, Some(message), diagnosticPath;
      progress := progress.(latestMessage := message);
      return true;
    }
  }
}
