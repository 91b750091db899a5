/**
 * Reviewing fallback voices: the approval catalog and every decision on it
 * (packages/application/src/review-fallback-approvals.ts and fallback-approval.ts).
 */
module FallbackApprovals {
  import opened Wrappers

  type SegmentId = string
  type Actor = string
  type Instant = int

  datatype Reason = UnresolvedSpeaker | MissingSpeakerVoice

  /** What a decision about one fallback segment is about. */
  datatype Subject = Subject(segmentId: SegmentId, speakerId: Option<string>, reason: Reason,
                             voiceProfileId: string, sourceTextSha256: string)

  /** A book-wide grant over a canonical, repetition-free set of subjects; these fields are its identity. */
  datatype Grant = Grant(decidedBy: Actor, decidedAt: Instant, subjects: set<Subject>)

  datatype Approval = Approval(subject: Subject, decidedBy: Actor, decidedAt: Instant, grant: Option<Grant>)

  datatype Catalog = Catalog(
    revision: nat,
    approvals: map<SegmentId, Approval>,
    exclusions: map<SegmentId, Actor>,
    grant: Option<Grant>)

  function IdsOf(subjects: seq<Subject>): set<SegmentId> {
    set i | 0 <= i < |subjects| :: subjects[i].segmentId
  }

  /** Segment IDs are unique in a book. */
  ghost predicate DistinctIds(subjects: seq<Subject>) {
    forall i, j | 0 <= i < j < |subjects| :: subjects[i].segmentId != subjects[j].segmentId
  }

  /** Approvals are filed under their own segment, and a withdrawn segment has none. */
  ghost predicate Valid(c: Catalog) {
    && (forall id | id in c.approvals :: c.approvals[id].subject.segmentId == id)
    && c.approvals.Keys !! c.exclusions.Keys
  }

  // ---------------------------------------------------------------- the repository

  function Saved(c: Catalog, record: Approval): Catalog {
    Catalog(c.revision + 1, c.approvals[record.subject.segmentId := record],
            c.exclusions - {record.subject.segmentId}, c.grant)
  }

  /** `withdrawnBy` names the human who withdrew; a system invalidation has none. */
  function Revoked(c: Catalog, id: SegmentId, withdrawnBy: Option<Actor>): Catalog {
    Catalog(c.revision + 1, c.approvals - {id}, if withdrawnBy.Some? then c.exclusions[id := withdrawnBy.value] else c.exclusions, c.grant)
  }

  class FallbackApprovalRepository {
    var catalog: Catalog

    constructor ()
      ensures catalog == Catalog(0, map[], map[], None) && Valid(catalog)
    {
      catalog := Catalog(0, map[], map[], None);
    }

    method Save(record: Approval)
      modifies this
      ensures catalog == Saved(old(catalog), record)
    {
      var approvals := catalog.approvals[record.subject.segmentId := record];
      var exclusions := catalog.exclusions - {record.subject.segmentId};
      catalog := catalog.(revision := catalog.revision + 1, approvals := approvals, exclusions := exclusions);
    }

    method Revoke(id: SegmentId, withdrawnBy: Option<Actor>) returns (removed: bool)
      modifies this
      ensures catalog == Revoked(old(catalog), id, withdrawnBy) && (removed <==> id in old(catalog).approvals)
    {
      removed := id in catalog.approvals;
      catalog := catalog.(approvals := catalog.approvals - {id});
      if withdrawnBy.Some? {
        catalog := catalog.(exclusions := catalog.exclusions[id := withdrawnBy.value]);
      }
      catalog := catalog.(revision := catalog.revision + 1);
    }

    method SaveBookGrant(grant: Grant)
      modifies this
      ensures catalog == old(catalog).(revision := old(catalog).revision + 1, grant := Some(grant))
    {
      catalog := catalog.(revision := catalog.revision + 1, grant := Some(grant));
    }

    method RevokeBookGrant() returns (removed: bool)
      modifies this
      ensures catalog == old(catalog).(revision := old(catalog).revision + 1, grant := None)
      ensures removed <==> old(catalog).grant.Some?
    {
      removed := catalog.grant.Some?;
      catalog := catalog.(revision := catalog.revision + 1, grant := None);
    }
  }

  // ---------------------------------------------------------------- reconciliation

  predicate Kept(c: Catalog, s: Subject) {
    s.segmentId in c.approvals && c.approvals[s.segmentId].subject == s
  }

  /** The live grant covers exactly this subject and no human withdrew the segment. */
  predicate Grantable(c: Catalog, s: Subject) {
    s.segmentId !in c.exclusions && c.grant.Some? && s in c.grant.value.subjects
  }

  predicate Approvable(c: Catalog, s: Subject) {
    Kept(c, s) || Grantable(c, s)
  }

  function RecordFor(c: Catalog, s: Subject, now: Instant): (r: Approval)
    requires Approvable(c, s)
    ensures r.subject == s
  {
    if Kept(c, s) then c.approvals[s.segmentId]
    else Approval(s, c.grant.value.decidedBy, now, c.grant)
  }

  /** What reconciling one subject does to the stored catalog, given the catalog read at the start. */
  function ReconcileOne(read: Catalog, stored: Catalog, s: Subject, now: Instant): Catalog {
    if Kept(read, s) then stored
    else
      var invalidated := if s.segmentId in read.approvals then Revoked(stored, s.segmentId, None) else stored;
      if Grantable(read, s) then Saved(invalidated, RecordFor(read, s, now)) else invalidated
  }

  function ReconcileEach(read: Catalog, stored: Catalog, subjects: seq<Subject>, now: Instant): Catalog
    decreases |subjects|
  {
    if subjects == [] then stored
    else ReconcileEach(read, ReconcileOne(read, stored, subjects[0], now), subjects[1..], now)
  }

  /** Approvals of segments that no longer fall back are removed, one write each. */
  function Pruned(c: Catalog, ids: set<SegmentId>): Catalog {
    WithoutAll(c, c.approvals.Keys - ids)
  }

  function WithoutAll(c: Catalog, gone: set<SegmentId>): Catalog {
    c.(revision := c.revision + |gone|, approvals := c.approvals - gone)
  }

  lemma WithoutOne(c: Catalog, gone: set<SegmentId>, id: SegmentId)
    requires id !in gone
    ensures Revoked(WithoutAll(c, gone), id, None) == WithoutAll(c, gone + {id})
  {
    assert c.approvals - gone - {id} == c.approvals - (gone + {id});
  }

  lemma WithoutNone(c: Catalog, stale: set<SegmentId>)
    ensures WithoutAll(c, stale - stale) == c
  {
    assert stale - stale == {};
    assert c.approvals - {} == c.approvals;
  }

  lemma WithoutOneMore(c: Catalog, stale: set<SegmentId>, left: set<SegmentId>, id: SegmentId)
    requires left <= stale && id in left
    ensures Revoked(WithoutAll(c, stale - left), id, None) == WithoutAll(c, stale - (left - {id}))
  {
    WithoutOne(c, stale - left, id);
    assert stale - (left - {id}) == (stale - left) + {id};
  }

  function Reconciled(c: Catalog, subjects: seq<Subject>, now: Instant): Catalog {
    ReconcileEach(c, Pruned(c, IdsOf(subjects)), subjects, now)
  }

  function ApprovedOf(c: Catalog, subjects: seq<Subject>, now: Instant): seq<Approval> {
    if subjects == [] then [] else
      (if Approvable(c, subjects[0]) then [RecordFor(c, subjects[0], now)] else []) + ApprovedOf(c, subjects[1..], now)
  }

  function PendingOf(c: Catalog, subjects: seq<Subject>): seq<Subject> {
    if subjects == [] then [] else
      (if Approvable(c, subjects[0]) then [] else [subjects[0]]) + PendingOf(c, subjects[1..])
  }

  /** `approvals` holds one record for each approvable subject and no other. */
  ghost predicate ApprovesExactly(approvals: map<SegmentId, Approval>, c: Catalog, subjects: seq<Subject>, now: Instant) {
    && approvals.Keys <= IdsOf(subjects)
    && (forall i | 0 <= i < |subjects| :: RightlyFiled(approvals, c, subjects[i], now))
  }

  predicate RightlyFiled(approvals: map<SegmentId, Approval>, c: Catalog, s: Subject, now: Instant) {
    && (s.segmentId in approvals <==> Approvable(c, s))
    && (Approvable(c, s) ==> approvals[s.segmentId] == RecordFor(c, s, now))
  }

  lemma {:induction false} ReconcileEachShape(read: Catalog, stored: Catalog, subjects: seq<Subject>, now: Instant)
    requires DistinctIds(subjects)
    requires forall i | 0 <= i < |subjects| ::
               var id := subjects[i].segmentId;
               && (id in stored.approvals <==> id in read.approvals)
               && (id in read.approvals ==> stored.approvals[id] == read.approvals[id])
    requires stored.exclusions == read.exclusions && stored.grant == read.grant
    ensures var after := ReconcileEach(read, stored, subjects, now);
            && after.exclusions == read.exclusions && after.grant == read.grant
            && after.revision >= stored.revision
            && (after.revision == stored.revision ==> after == stored)
            && (forall i | 0 <= i < |subjects| :: RightlyFiled(after.approvals, read, subjects[i], now))
            && (forall id | id !in IdsOf(subjects) ::
                  && (id in after.approvals <==> id in stored.approvals)
                  && (id in after.approvals ==> after.approvals[id] == stored.approvals[id]))
    decreases |subjects|
  {
    if subjects != [] {
      var next := ReconcileOne(read, stored, subjects[0], now);
      ReconcileEachShape(read, next, subjects[1..], now);
      assert IdsOf(subjects) == IdsOf(subjects[1..]) + {subjects[0].segmentId};
      assert forall i | 1 <= i < |subjects| :: subjects[i] == subjects[1..][i - 1];
    }
  }

  /** Reconciliation leaves exactly the approvable subjects approved, and changes nothing else. */
  lemma ReconciledShape(c: Catalog, subjects: seq<Subject>, now: Instant)
    requires Valid(c) && DistinctIds(subjects)
    ensures var after := Reconciled(c, subjects, now);
            && ApprovesExactly(after.approvals, c, subjects, now)
            && after.exclusions == c.exclusions && after.grant == c.grant
            && after.revision >= c.revision
            && (after.revision == c.revision <==> after == c)
            && Valid(after)
  {
    var pruned := Pruned(c, IdsOf(subjects));
    var after := Reconciled(c, subjects, now);
    ReconcileEachShape(c, pruned, subjects, now);
    forall id | id in after.approvals
      ensures id in IdsOf(subjects) && after.approvals[id].subject.segmentId == id && id !in c.exclusions
    {
      assert id in pruned.approvals ==> id in IdsOf(subjects);
      var i :| 0 <= i < |subjects| && subjects[i].segmentId == id;
      assert RightlyFiled(after.approvals, c, subjects[i], now);
    }
    if after.revision == c.revision {
      assert pruned.revision == c.revision;
      PruningCounts(c, IdsOf(subjects));
    }
  }

  lemma PruningCounts(c: Catalog, ids: set<SegmentId>)
    requires Pruned(c, ids).revision == c.revision
    ensures Pruned(c, ids) == c
  {
    var stale := c.approvals.Keys - ids;
    assert |stale| == 0;
    assert stale == {};
    assert c.approvals - {} == c.approvals;
  }

  lemma {:induction false} NothingToReconcile(read: Catalog, stored: Catalog, subjects: seq<Subject>, now: Instant)
    requires forall i | 0 <= i < |subjects| ::
               Kept(read, subjects[i]) || (!Grantable(read, subjects[i]) && subjects[i].segmentId !in read.approvals)
    ensures ReconcileEach(read, stored, subjects, now) == stored
    decreases |subjects|
  {
    if subjects != [] {
      NothingToReconcile(read, stored, subjects[1..], now);
    }
  }

  lemma SettledSubject(c: Catalog, after: Catalog, s: Subject, now: Instant)
    requires RightlyFiled(after.approvals, c, s, now) && after.exclusions == c.exclusions && after.grant == c.grant
    ensures Kept(after, s) || (!Grantable(after, s) && s.segmentId !in after.approvals)
  {
  }

  lemma PruningKeeps(c: Catalog, ids: set<SegmentId>)
    requires c.approvals.Keys <= ids
    ensures Pruned(c, ids) == c
  {
    assert c.approvals.Keys - ids == {};
  }

  /** A second reconciliation, at any later time, writes nothing. */
  lemma ReconcileIsIdempotent(c: Catalog, subjects: seq<Subject>, now: Instant, later: Instant)
    requires Valid(c) && DistinctIds(subjects)
    ensures Reconciled(Reconciled(c, subjects, now), subjects, later) == Reconciled(c, subjects, now)
  {
    var after := Reconciled(c, subjects, now);
    ReconciledShape(c, subjects, now);
    PruningKeeps(after, IdsOf(subjects));
    forall i | 0 <= i < |subjects|
      ensures Kept(after, subjects[i]) || (!Grantable(after, subjects[i]) && subjects[i].segmentId !in after.approvals)
    {
      SettledSubject(c, after, subjects[i], now);
    }
    NothingToReconcile(after, after, subjects, later);
  }

  // ---------------------------------------------------------------- the render gate

  function MissingOf(c: Catalog, subjects: seq<Subject>): seq<SegmentId> {
    if subjects == [] then [] else
      (if Kept(c, subjects[0]) then [] else [subjects[0].segmentId]) + MissingOf(c, subjects[1..])
  }

  function SegmentIds(subjects: seq<Subject>): seq<SegmentId> {
    seq(|subjects|, i requires 0 <= i < |subjects| => subjects[i].segmentId)
  }

  /** The live records of the subjects they still describe. */
  function ResolvedOf(c: Catalog, subjects: seq<Subject>): map<SegmentId, Approval> {
    if subjects == [] then map[] else
      var last := subjects[|subjects| - 1];
      var before := ResolvedOf(c, subjects[..|subjects| - 1]);
      if Kept(c, last) then before[last.segmentId := c.approvals[last.segmentId]] else before
  }

  lemma ResolveStep(c: Catalog, subjects: seq<Subject>, i: nat, missing: seq<SegmentId>)
    requires i < |subjects|
    ensures var s := subjects[i];
            if Kept(c, s) then
              && MissingOf(c, subjects[i..]) == MissingOf(c, subjects[i + 1..])
              && ResolvedOf(c, subjects[..i + 1]) == ResolvedOf(c, subjects[..i])[s.segmentId := c.approvals[s.segmentId]]
            else
              && missing + MissingOf(c, subjects[i..]) == missing + [s.segmentId] + MissingOf(c, subjects[i + 1..])
              && ResolvedOf(c, subjects[..i + 1]) == ResolvedOf(c, subjects[..i])
  {
    assert subjects[i..][1..] == subjects[i + 1..];
    assert subjects[..i + 1][..i] == subjects[..i];
    assert missing + ([subjects[i].segmentId] + MissingOf(c, subjects[i + 1..]))
        == missing + [subjects[i].segmentId] + MissingOf(c, subjects[i + 1..]);
  }

  /** The live decision of every fallback segment, or the segments without one. */
  method ResolveApprovals(c: Catalog, subjects: seq<Subject>)
    returns (r: Result<map<SegmentId, Approval>, seq<SegmentId>>)
    ensures r == if MissingOf(c, subjects) == [] then Ok(ResolvedOf(c, subjects)) else Err(MissingOf(c, subjects))
  {
    var resolved: map<SegmentId, Approval> := map[];
    var missing: seq<SegmentId> := [];
    assert subjects[0..] == subjects;
    for i := 0 to |subjects|
      invariant missing + MissingOf(c, subjects[i..]) == MissingOf(c, subjects)
      invariant resolved == ResolvedOf(c, subjects[..i])
    {
      ResolveStep(c, subjects, i, missing);
      var id := subjects[i].segmentId;
      if id !in c.approvals || c.approvals[id].subject != subjects[i] {
        missing := missing + [id];
      } else {
        resolved := resolved[id := c.approvals[id]];
      }
    }
    assert subjects[..|subjects|] == subjects && missing + [] == missing;
    if missing != [] { return Err(missing); }
    return Ok(resolved);
  }

  lemma {:induction false} NothingMissingIff(c: Catalog, subjects: seq<Subject>)
    ensures MissingOf(c, subjects) == [] <==> forall i | 0 <= i < |subjects| :: Kept(c, subjects[i])
  {
    if subjects != [] {
      NothingMissingIff(c, subjects[1..]);
      assert forall i | 1 <= i < |subjects| :: subjects[i] == subjects[1..][i - 1];
      assert forall i | 0 <= i < |subjects| - 1 :: subjects[1..][i] == subjects[i + 1];
    }
  }

  /** When the gate opens, every fallback segment is claimed with the record live in the catalog. */
  lemma {:induction false} ResolvedShape(c: Catalog, subjects: seq<Subject>)
    requires forall i | 0 <= i < |subjects| :: Kept(c, subjects[i])
    ensures ResolvedOf(c, subjects).Keys == IdsOf(subjects)
    ensures forall id | id in ResolvedOf(c, subjects) :: id in c.approvals && ResolvedOf(c, subjects)[id] == c.approvals[id]
  {
    if subjects != [] {
      var before, last := subjects[..|subjects| - 1], subjects[|subjects| - 1];
      ResolvedShape(c, before);
      assert subjects == before + [last];
      assert IdsOf(subjects) == IdsOf(before) + {last.segmentId} by {
        assert forall i | 0 <= i < |before| :: subjects[i] == before[i];
      }
    }
  }

  lemma {:induction false} MissingAfterReconcile(c: Catalog, after: Catalog, subjects: seq<Subject>)
    requires forall i | 0 <= i < |subjects| :: Kept(after, subjects[i]) <==> Approvable(c, subjects[i])
    ensures MissingOf(after, subjects) == SegmentIds(PendingOf(c, subjects))
    decreases |subjects|
  {
    if subjects != [] {
      MissingAfterReconcile(c, after, subjects[1..]);
    }
  }

  /**
   * After a reconciliation the render gate misses exactly the pending segments, in book order; so
   * it opens exactly when nothing is pending.
   */
  lemma PendingIsWhatTheGateMisses(c: Catalog, subjects: seq<Subject>, now: Instant)
    requires Valid(c) && DistinctIds(subjects)
    ensures MissingOf(Reconciled(c, subjects, now), subjects) == SegmentIds(PendingOf(c, subjects))
  {
    var after := Reconciled(c, subjects, now);
    ReconciledShape(c, subjects, now);
    forall i | 0 <= i < |subjects| ensures Kept(after, subjects[i]) <==> Approvable(c, subjects[i]) {
      assert RightlyFiled(after.approvals, c, subjects[i], now);
    }
    MissingAfterReconcile(c, after, subjects);
  }

  // ---------------------------------------------------------------- selecting what a grant covers

  datatype ReviewError =
    | RenderInProgress
    | NotAFallbackSegment
    | NothingPending
    | EmptySelection
    | RepeatedSelection
    | NotOnOffer(ids: seq<SegmentId>)

  predicate OnOffer(c: Catalog, s: Subject) {
    s.segmentId !in c.exclusions && !Kept(c, s)
  }

  function Offerable(c: Catalog, subjects: seq<Subject>): seq<Subject> {
    if subjects == [] then [] else
      (if OnOffer(c, subjects[0]) then [subjects[0]] else []) + Offerable(c, subjects[1..])
  }

  lemma {:induction false} OfferableShape(c: Catalog, subjects: seq<Subject>)
    ensures forall s :: s in Offerable(c, subjects) <==> s in subjects && OnOffer(c, s)
  {
    if subjects != [] {
      OfferableShape(c, subjects[1..]);
      assert subjects == [subjects[0]] + subjects[1..];
    }
  }

  ghost predicate NoRepeats(ids: seq<SegmentId>) {
    forall i, j | 0 <= i < j < |ids| :: ids[i] != ids[j]
  }

  lemma ElementsOfSnoc(before: seq<SegmentId>, last: SegmentId)
    ensures (set id | id in before + [last]) == (set id | id in before) + {last}
    ensures NoRepeats(before + [last]) <==> NoRepeats(before) && last !in before
  {
    var ids := before + [last];
    assert forall i | 0 <= i < |before| :: ids[i] == before[i];
    assert ids[|before|] == last;
  }

  lemma {:induction false} CountIsLengthIff(ids: seq<SegmentId>)
    ensures |set id | id in ids| <= |ids|
    ensures |set id | id in ids| == |ids| <==> NoRepeats(ids)
  {
    if ids != [] {
      var before, last := ids[..|ids| - 1], ids[|ids| - 1];
      assert ids == before + [last];
      CountIsLengthIff(before);
      ElementsOfSnoc(before, last);
      if last in before {
        assert (set id | id in before) + {last} == set id | id in before;
      }
    }
  }

  /** The subjects an explicit selection names, when every ID is on offer exactly as the human saw it. */
  method SelectOfferable(offerable: seq<Subject>, ids: seq<SegmentId>) returns (r: Result<set<Subject>, ReviewError>)
    requires DistinctIds(offerable)
    ensures r == Selection(offerable, ids)
  {
    CountIsLengthIff(ids);
    if ids == [] { return Err(EmptySelection); }
    if |set id | id in ids| != |ids| { return Err(RepeatedSelection); }
    var onOffer := IdsOf(offerable);
    var notOnOffer: seq<SegmentId> := [];
    assert ids[0..] == ids;
    for i := 0 to |ids|
      invariant notOnOffer + Absent(ids[i..], onOffer) == Absent(ids, onOffer)
    {
      AbsentStep(ids, i, onOffer, notOnOffer);
      if ids[i] !in onOffer {
        notOnOffer := notOnOffer + [ids[i]];
      }
    }
    assert notOnOffer + [] == notOnOffer;
    if notOnOffer != [] { return Err(NotOnOffer(notOnOffer)); }
    return Ok(set s | s in offerable && s.segmentId in ids);
  }

  function Absent(ids: seq<SegmentId>, onOffer: set<SegmentId>): seq<SegmentId> {
    if ids == [] then [] else (if ids[0] in onOffer then [] else [ids[0]]) + Absent(ids[1..], onOffer)
  }

  lemma AbsentStep(ids: seq<SegmentId>, i: nat, onOffer: set<SegmentId>, made: seq<SegmentId>)
    requires i < |ids|
    ensures if ids[i] in onOffer then Absent(ids[i..], onOffer) == Absent(ids[i + 1..], onOffer)
            else made + Absent(ids[i..], onOffer) == made + [ids[i]] + Absent(ids[i + 1..], onOffer)
  {
    assert ids[i..][1..] == ids[i + 1..];
  }

  ghost function Selection(offerable: seq<Subject>, ids: seq<SegmentId>): Result<set<Subject>, ReviewError> {
    if ids == [] then Err(EmptySelection)
    else if !NoRepeats(ids) then Err(RepeatedSelection)
    else if Absent(ids, IdsOf(offerable)) != [] then Err(NotOnOffer(Absent(ids, IdsOf(offerable))))
    else Ok(set s | s in offerable && s.segmentId in ids)
  }

  lemma {:induction false} NothingAbsentIff(ids: seq<SegmentId>, onOffer: set<SegmentId>)
    ensures Absent(ids, onOffer) == [] <==> forall i | 0 <= i < |ids| :: ids[i] in onOffer
  {
    if ids != [] {
      NothingAbsentIff(ids[1..], onOffer);
      assert forall i | 1 <= i < |ids| :: ids[i] == ids[1..][i - 1];
      assert forall i | 0 <= i < |ids| - 1 :: ids[1..][i] == ids[i + 1];
    }
  }

  // ---------------------------------------------------------------- decisions and their effect

  /** One review operation on the script current at that time. `ids.None?` grants the whole queue. */
  datatype Decision =
    | Reconcile(subjects: seq<Subject>, now: Instant)
    | GrantBook(subjects: seq<Subject>, ids: Option<seq<SegmentId>>, actor: Actor, now: Instant)
    | RevokeGrant
    | Approve(subjects: seq<Subject>, id: SegmentId, actor: Actor, now: Instant)
    | Withdraw(subjects: seq<Subject>, id: SegmentId, actor: Actor)

  predicate Names(subjects: seq<Subject>, id: SegmentId) {
    subjects != [] && (subjects[0].segmentId == id || Names(subjects[1..], id))
  }

  function SubjectFor(subjects: seq<Subject>, id: SegmentId): (s: Subject)
    requires Names(subjects, id)
    ensures s in subjects && s.segmentId == id
  {
    if subjects[0].segmentId == id then subjects[0] else SubjectFor(subjects[1..], id)
  }

  ghost function Granted(c: Catalog, subjects: seq<Subject>, ids: Option<seq<SegmentId>>): Result<set<Subject>, ReviewError> {
    var offerable := Offerable(c, subjects);
    if ids.Some? then Selection(offerable, ids.value)
    else if offerable == [] && c.grant.None? then Err(NothingPending)
    else Ok(set s | s in offerable)
  }

  /** The error a decision is refused with, if any; a refused decision writes nothing. */
  ghost function Refusal(c: Catalog, d: Decision): Option<ReviewError> {
    match d
    case Reconcile(_, _) => None
    case RevokeGrant => None
    case GrantBook(subjects, ids, _, _) =>
      var granted := Granted(c, subjects, ids);
      if granted.Err? then Some(granted.error) else None
    case Approve(subjects, id, _, _) => if Names(subjects, id) then None else Some(NotAFallbackSegment)
    case Withdraw(subjects, id, _) => if Names(subjects, id) then None else Some(NotAFallbackSegment)
  }

  function WithGrant(c: Catalog, actor: Actor, now: Instant, granted: set<Subject>): Catalog {
    c.(revision := c.revision + 1, grant := Some(Grant(actor, now, granted)))
  }

  ghost function Decided(c: Catalog, d: Decision): Catalog {
    if Refusal(c, d).Some? then c else
      match d
      case Reconcile(subjects, now) => Reconciled(c, subjects, now)
      case RevokeGrant => c.(revision := c.revision + 1, grant := None)
      case GrantBook(subjects, ids, actor, now) =>
        var granted := Granted(c, subjects, ids).value;
        if granted == {} then Reconciled(c, subjects, now)
        else Reconciled(WithGrant(c, actor, now, granted), subjects, now)
      case Approve(subjects, id, actor, now) => Saved(c, Approval(SubjectFor(subjects, id), actor, now, None))
      case Withdraw(_, id, actor) => Revoked(c, id, Some(actor))
  }

  // ---------------------------------------------------------------- the service

  datatype JobState = Pending | Running | AwaitingReview | Failed | Abandoned | Completed

  lemma ReconcileStep(read: Catalog, stored: Catalog, subjects: seq<Subject>, i: nat, now: Instant,
                      approved: seq<Approval>, pending: seq<Subject>)
    requires i < |subjects|
    ensures ReconcileEach(read, stored, subjects[i..], now)
         == ReconcileEach(read, ReconcileOne(read, stored, subjects[i], now), subjects[i + 1..], now)
    ensures var s := subjects[i];
            if Approvable(read, s) then
              && approved + ApprovedOf(read, subjects[i..], now)
                 == approved + [RecordFor(read, s, now)] + ApprovedOf(read, subjects[i + 1..], now)
              && PendingOf(read, subjects[i..]) == PendingOf(read, subjects[i + 1..])
            else
              && ApprovedOf(read, subjects[i..], now) == ApprovedOf(read, subjects[i + 1..], now)
              && pending + PendingOf(read, subjects[i..]) == pending + [s] + PendingOf(read, subjects[i + 1..])
  {
    assert subjects[i..][1..] == subjects[i + 1..];
  }

  class ReviewFallbackApprovals {
    const approvals: FallbackApprovalRepository
    var job: JobState

    constructor (approvals: FallbackApprovalRepository, job: JobState)
      ensures this.approvals == approvals && this.job == job
    {
      this.approvals, this.job := approvals, job;
    }

    /** Removes the decisions whose segment no longer falls back, in any order. */
    method RemoveStale(ids: set<SegmentId>)
      modifies approvals
      ensures approvals.catalog == Pruned(old(approvals.catalog), ids)
    {
      ghost var read := approvals.catalog;
      var left := approvals.catalog.approvals.Keys - ids;
      ghost var stale := left;
      WithoutNone(read, stale);
      while left != {}
        invariant left <= stale && approvals.catalog == WithoutAll(read, stale - left)
        decreases |left|
      {
        var id :| id in left;
        WithoutOneMore(read, stale, left, id);
        var removed := approvals.Revoke(id, None);
        left := left - {id};
      }
      assert stale - left == stale;
    }

    method Reconcile(subjects: seq<Subject>, now: Instant) returns (approved: seq<Approval>, pending: seq<Subject>)
      modifies approvals
      ensures approvals.catalog == Reconciled(old(approvals.catalog), subjects, now)
      ensures approved == ApprovedOf(old(approvals.catalog), subjects, now)
      ensures pending == PendingOf(old(approvals.catalog), subjects)
    {
      var read := approvals.catalog;
      approved, pending := [], [];
      RemoveStale(IdsOf(subjects));
      assert subjects[0..] == subjects;
      for i := 0 to |subjects|
        invariant ReconcileEach(read, approvals.catalog, subjects[i..], now) == Reconciled(read, subjects, now)
        invariant approved + ApprovedOf(read, subjects[i..], now) == ApprovedOf(read, subjects, now)
        invariant pending + PendingOf(read, subjects[i..]) == PendingOf(read, subjects)
      {
        var subject := subjects[i];
        ReconcileStep(read, approvals.catalog, subjects, i, now, approved, pending);
        var record := ReconcileSubject(read, subject, now);
        if record.Some? {
          approved := approved + [record.value];
        } else {
          pending := pending + [subject];
        }
      }
      assert approved + [] == approved && pending + [] == pending;
    }

    method ReconcileSubject(read: Catalog, subject: Subject, now: Instant) returns (record: Option<Approval>)
      modifies approvals
      ensures approvals.catalog == ReconcileOne(read, old(approvals.catalog), subject, now)
      ensures record == if Approvable(read, subject) then Some(RecordFor(read, subject, now)) else None
    {
      var id := subject.segmentId;
      if id in read.approvals {
        if read.approvals[id].subject == subject { return Some(read.approvals[id]); }
        var removed := approvals.Revoke(id, None);
      }
      if id in read.exclusions { return None; }
      if read.grant.None? || subject !in read.grant.value.subjects { return None; }
      var created := Approval(subject, read.grant.value.decidedBy, now, read.grant);
      approvals.Save(created);
      return Some(created);
    }

    method ReopenIfCompleted()
      modifies this`job
      ensures job == if old(job) == Completed then AwaitingReview else old(job)
    {
      if job == Completed { job := AwaitingReview; }
    }

    /** The subjects a grant covers, or why it is refused. */
    method CoveredBy(read: Catalog, subjects: seq<Subject>, ids: Option<seq<SegmentId>>)
      returns (r: Result<set<Subject>, ReviewError>)
      requires DistinctIds(subjects)
      ensures r == Granted(read, subjects, ids)
    {
      var offerable := Offerable(read, subjects);
      OfferableIsDistinct(read, subjects);
      var covered := set s | s in offerable;
      if ids.Some? {
        covered :- SelectOfferable(offerable, ids.value);
      }
      GrantedNothing(offerable, ids, covered);
      if covered == {} && read.grant.None? { return Err(NothingPending); }
      return Ok(covered);
    }

    method GrantBookFallback(subjects: seq<Subject>, ids: Option<seq<SegmentId>>, actor: Actor, now: Instant)
      returns (r: Result<seq<Subject>, ReviewError>)
      requires DistinctIds(subjects)
      modifies this`job, approvals
      ensures old(job) == Running ==> r == Err(RenderInProgress) && job == Running && approvals.catalog == old(approvals.catalog)
      ensures old(job) != Running ==>
        && job != Completed && (old(job) != Completed ==> job == old(job))
        && approvals.catalog == Decided(old(approvals.catalog), GrantBook(subjects, ids, actor, now))
        && match Granted(old(approvals.catalog), subjects, ids)
           case Err(error) => r == Err(error)
           case Ok(_) => r.Ok?
    {
      if job == Running { return Err(RenderInProgress); }
      ReopenIfCompleted();
      var read := approvals.catalog;
      var covered := CoveredBy(read, subjects, ids);
      if covered.Err? {
        GrantIsRefused(read, subjects, ids, actor, now);
        return Err(covered.error);
      }
      GrantIs(read, subjects, ids, actor, now, covered.value);
      var pending := GrantCovered(subjects, actor, now, covered.value);
      ReopenIfCompleted();
      return Ok(pending);
    }

    /** Records the grant, unless it covers nothing, and reconciles under it. */
    method GrantCovered(subjects: seq<Subject>, actor: Actor, now: Instant, granted: set<Subject>) returns (pending: seq<Subject>)
      modifies approvals
      ensures approvals.catalog == Reconciled(if granted == {} then old(approvals.catalog)
                                              else WithGrant(old(approvals.catalog), actor, now, granted), subjects, now)
    {
      if granted != {} {
        approvals.SaveBookGrant(Grant(actor, now, granted));
      }
      var approved;
      approved, pending := Reconcile(subjects, now);
    }

    method RevokeBookFallback() returns (r: Result<bool, ReviewError>)
      modifies this`job, approvals
      ensures old(job) == Running ==> r == Err(RenderInProgress) && job == Running && approvals.catalog == old(approvals.catalog)
      ensures old(job) != Running ==>
        && r.Ok? && job != Completed && (old(job) != Completed ==> job == old(job))
        && approvals.catalog == Decided(old(approvals.catalog), RevokeGrant)
    {
      if job == Running { return Err(RenderInProgress); }
      ReopenIfCompleted();
      var removed := approvals.RevokeBookGrant();
      ReopenIfCompleted();
      return Ok(removed);
    }

    method ApproveSegment(subjects: seq<Subject>, id: SegmentId, actor: Actor, now: Instant) returns (r: Result<Approval, ReviewError>)
      modifies this`job, approvals
      ensures r.Err? ==> job == old(job) && approvals.catalog == old(approvals.catalog)
      ensures r.Err? <==> !Names(subjects, id) || old(job) == Running
      ensures r.Ok? ==>
        && job != Completed && (old(job) != Completed ==> job == old(job))
        && approvals.catalog == Decided(old(approvals.catalog), Approve(subjects, id, actor, now))
    {
      if !Names(subjects, id) { return Err(NotAFallbackSegment); }
      if job == Running { return Err(RenderInProgress); }
      ReopenIfCompleted();
      var record := Approval(SubjectFor(subjects, id), actor, now, None);
      approvals.Save(record);
      ReopenIfCompleted();
      return Ok(record);
    }

    method RevokeSegment(subjects: seq<Subject>, id: SegmentId, actor: Actor) returns (r: Result<bool, ReviewError>)
      modifies this`job, approvals
      ensures r.Err? ==> job == old(job) && approvals.catalog == old(approvals.catalog)
      ensures r.Err? <==> !Names(subjects, id) || old(job) == Running
      ensures r.Ok? ==>
        && job != Completed && (old(job) != Completed ==> job == old(job))
        && approvals.catalog == Decided(old(approvals.catalog), Withdraw(subjects, id, actor))
    {
      if !Names(subjects, id) { return Err(NotAFallbackSegment); }
      if job == Running { return Err(RenderInProgress); }
      ReopenIfCompleted();
      var removed := approvals.Revoke(id, Some(actor));
      ReopenIfCompleted();
      return Ok(removed);
    }
  }

  lemma {:induction false} OfferableIsDistinct(c: Catalog, subjects: seq<Subject>)
    requires DistinctIds(subjects)
    ensures DistinctIds(Offerable(c, subjects))
  {
    if subjects != [] {
      OfferableIsDistinct(c, subjects[1..]);
      OfferableShape(c, subjects[1..]);
      var rest := Offerable(c, subjects[1..]);
      forall i | 0 <= i < |rest| ensures rest[i].segmentId != subjects[0].segmentId {
        assert rest[i] in subjects[1..];
      }
    }
  }

  /** A refused grant writes nothing to the catalog. */
  lemma GrantIsRefused(c: Catalog, subjects: seq<Subject>, ids: Option<seq<SegmentId>>, actor: Actor, now: Instant)
    requires Granted(c, subjects, ids).Err?
    ensures Refusal(c, GrantBook(subjects, ids, actor, now)) == Some(Granted(c, subjects, ids).error)
    ensures Decided(c, GrantBook(subjects, ids, actor, now)) == c
  {
  }

  /** The catalog to reconcile once the covered subjects are known. */
  lemma GrantIs(c: Catalog, subjects: seq<Subject>, ids: Option<seq<SegmentId>>, actor: Actor, now: Instant, granted: set<Subject>)
    requires Granted(c, subjects, ids) == Ok(granted)
    ensures Refusal(c, GrantBook(subjects, ids, actor, now)).None?
    ensures Decided(c, GrantBook(subjects, ids, actor, now))
         == Reconciled(if granted == {} then c else WithGrant(c, actor, now, granted), subjects, now)
  {
  }

  /** Only an empty queue grants nothing: an accepted selection always names a subject. */
  lemma GrantedNothing(offerable: seq<Subject>, ids: Option<seq<SegmentId>>, granted: set<Subject>)
    requires if ids.Some? then Selection(offerable, ids.value) == Ok(granted) else granted == set s | s in offerable
    ensures granted == {} <==> offerable == [] && ids.None?
  {
    if ids.Some? {
      NothingAbsentIff(ids.value, IdsOf(offerable));
      assert ids.value[0] in IdsOf(offerable);
      var i :| 0 <= i < |offerable| && offerable[i].segmentId == ids.value[0];
      assert offerable[i] in granted;
    } else if offerable != [] {
      assert offerable[0] in granted;
    }
  }

  // ---------------------------------------------------------------- runs of decisions

  ghost predicate ProperDecision(d: Decision) {
    match d
    case RevokeGrant => true
    case _ => DistinctIds(d.subjects)
  }

  /** The catalog an accepted grant reconciles. */
  ghost function GrantBase(c: Catalog, d: Decision): Catalog
    requires d.GrantBook? && Granted(c, d.subjects, d.ids).Ok?
  {
    var granted := Granted(c, d.subjects, d.ids).value;
    if granted == {} then c else WithGrant(c, d.actor, d.now, granted)
  }

  lemma GrantDecided(c: Catalog, d: Decision)
    requires d.GrantBook?
    ensures Decided(c, d) == if Granted(c, d.subjects, d.ids).Ok? then Reconciled(GrantBase(c, d), d.subjects, d.now) else c
  {
  }

  lemma GrantBaseIsValid(c: Catalog, d: Decision)
    requires Valid(c) && d.GrantBook? && Granted(c, d.subjects, d.ids).Ok?
    ensures Valid(GrantBase(c, d)) && GrantBase(c, d).exclusions == c.exclusions
    ensures GrantBase(c, d) == c || GrantBase(c, d).revision > c.revision
  {
  }

  lemma GrantKeeps(c: Catalog, d: Decision)
    requires Valid(c) && ProperDecision(d) && d.GrantBook?
    ensures var after := Decided(c, d);
            && Valid(after) && after.exclusions == c.exclusions
            && after.revision >= c.revision && (after.revision == c.revision ==> after == c)
  {
    GrantDecided(c, d);
    if Granted(c, d.subjects, d.ids).Ok? {
      GrantBaseIsValid(c, d);
      ReconciledShape(GrantBase(c, d), d.subjects, d.now);
    }
  }

  /** Every decision keeps the catalog valid and moves its revision whenever it changes it. */
  lemma DecisionsCount(c: Catalog, d: Decision)
    requires Valid(c) && ProperDecision(d)
    ensures Valid(Decided(c, d)) && Decided(c, d).revision >= c.revision
    ensures Decided(c, d).revision == c.revision ==> Decided(c, d) == c
  {
    if d.GrantBook? {
      GrantKeeps(c, d);
    } else if d.Reconcile? {
      ReconciledShape(c, d.subjects, d.now);
    }
  }

  ghost function Run(c: Catalog, decisions: seq<Decision>): Catalog
    decreases |decisions|
  {
    if decisions == [] then c else Run(Decided(c, decisions[0]), decisions[1..])
  }

  ghost predicate ProperRun(decisions: seq<Decision>) {
    forall i | 0 <= i < |decisions| :: ProperDecision(decisions[i])
  }

  ghost predicate Reapproved(decisions: seq<Decision>, id: SegmentId) {
    exists i | 0 <= i < |decisions| :: decisions[i].Approve? && decisions[i].id == id
  }

  lemma DecisionKeepsExclusion(c: Catalog, d: Decision, id: SegmentId)
    requires Valid(c) && ProperDecision(d) && id in c.exclusions && !(d.Approve? && d.id == id)
    ensures id in Decided(c, d).exclusions
  {
    if d.GrantBook? {
      GrantKeeps(c, d);
    } else if d.Reconcile? {
      ReconciledShape(c, d.subjects, d.now);
    }
  }

  /**
   * Once a human withdrew a segment it has no live approval, whatever is granted, withdrawn,
   * reconciled or re-directed afterwards, until a human approves that segment by name.
   */
  lemma {:induction false} WithdrawalSticks(c: Catalog, decisions: seq<Decision>, id: SegmentId)
    requires Valid(c) && ProperRun(decisions) && id in c.exclusions && !Reapproved(decisions, id)
    ensures id in Run(c, decisions).exclusions && id !in Run(c, decisions).approvals
    decreases |decisions|
  {
    if decisions != [] {
      var rest := decisions[1..];
      assert ProperDecision(decisions[0]) && !(decisions[0].Approve? && decisions[0].id == id);
      DecisionKeepsExclusion(c, decisions[0], id);
      DecisionsCount(c, decisions[0]);
      forall i | 0 <= i < |rest| ensures ProperDecision(rest[i]) && !(rest[i].Approve? && rest[i].id == id) {
        assert rest[i] == decisions[i + 1];
      }
      WithdrawalSticks(Decided(c, decisions[0]), rest, id);
    }
  }

  /** Along every run the revision only grows, and it stands still only while the catalog does. */
  lemma {:induction false} RevisionNamesCatalog(c: Catalog, decisions: seq<Decision>)
    requires Valid(c) && ProperRun(decisions)
    ensures Run(c, decisions).revision >= c.revision
    ensures Run(c, decisions).revision == c.revision ==> Run(c, decisions) == c
    decreases |decisions|
  {
    if decisions != [] {
      var rest := decisions[1..];
      assert ProperDecision(decisions[0]);
      DecisionsCount(c, decisions[0]);
      assert forall i | 0 <= i < |rest| :: rest[i] == decisions[i + 1];
      RevisionNamesCatalog(Decided(c, decisions[0]), rest);
    }
  }

  /** A selection is accepted exactly when it is not empty, repeats nothing, and is on offer as a whole. */
  lemma SelectionIsAcceptedIff(offerable: seq<Subject>, ids: seq<SegmentId>)
    ensures Selection(offerable, ids).Ok?
       <==> ids != [] && NoRepeats(ids) && forall i | 0 <= i < |ids| :: ids[i] in IdsOf(offerable)
    ensures Selection(offerable, ids).Ok? ==>
              forall s :: s in Selection(offerable, ids).value <==> s in offerable && s.segmentId in ids
  {
    NothingAbsentIff(ids, IdsOf(offerable));
  }

  /** So is a grant of the selected segments; one of the whole queue needs a queue or a grant to revise. */
  lemma GrantIsAcceptedIff(c: Catalog, subjects: seq<Subject>, ids: Option<seq<SegmentId>>, actor: Actor, now: Instant)
    ensures var accepted := Refusal(c, GrantBook(subjects, ids, actor, now)).None?;
            match ids
            case Some(selected) =>
              accepted <==> selected != [] && NoRepeats(selected)
                            && forall i | 0 <= i < |selected| :: exists s | s in subjects :: OnOffer(c, s) && s.segmentId == selected[i]
            case None => accepted <==> c.grant.Some? || exists s | s in subjects :: OnOffer(c, s)
  {
    var offerable := Offerable(c, subjects);
    OfferableShape(c, subjects);
    if ids.Some? {
      SelectionIsAcceptedIff(offerable, ids.value);
      forall id ensures id in IdsOf(offerable) <==> exists s | s in subjects :: OnOffer(c, s) && s.segmentId == id {
        OfferedIff(c, subjects, id);
      }
    } else if offerable != [] {
      assert offerable[0] in offerable;
    }
  }

  lemma OfferedIff(c: Catalog, subjects: seq<Subject>, id: SegmentId)
    ensures id in IdsOf(Offerable(c, subjects)) <==> exists s | s in subjects :: OnOffer(c, s) && s.segmentId == id
  {
    var offerable := Offerable(c, subjects);
    OfferableShape(c, subjects);
    if id in IdsOf(offerable) {
      var k :| 0 <= k < |offerable| && offerable[k].segmentId == id;
      assert offerable[k] in offerable;
    }
    if exists s | s in subjects :: OnOffer(c, s) && s.segmentId == id {
      var s :| s in subjects && OnOffer(c, s) && s.segmentId == id;
      var k :| 0 <= k < |offerable| && offerable[k] == s;
    }
  }

  // ---------------------------------------------------------------- what a decision does

  lemma {:induction false} NamesIff(subjects: seq<Subject>, id: SegmentId)
    ensures Names(subjects, id) <==> id in IdsOf(subjects)
  {
    if subjects != [] {
      NamesIff(subjects[1..], id);
      if id in IdsOf(subjects) {
        var i :| 0 <= i < |subjects| && subjects[i].segmentId == id;
        assert i > 0 ==> subjects[1..][i - 1] == subjects[i];
      }
      if id in IdsOf(subjects[1..]) {
        var i :| 0 <= i < |subjects[1..]| && subjects[1..][i].segmentId == id;
        assert subjects[i + 1] == subjects[1..][i];
      }
    }
  }

  /** Everything filed for other segments, and the grant, stays as it was; the revision moves. */
  ghost predicate OnlyChanges(before: Catalog, after: Catalog, id: SegmentId) {
    && after.revision > before.revision && after.grant == before.grant
    && (forall other | other != id ::
          && (other in after.approvals <==> other in before.approvals)
          && (other in after.exclusions <==> other in before.exclusions))
    && (forall other | other != id && other in before.approvals && other in after.approvals ::
          after.approvals[other] == before.approvals[other])
    && (forall other | other != id && other in before.exclusions && other in after.exclusions ::
          after.exclusions[other] == before.exclusions[other])
  }

  /** A withdrawal of a fallback segment removes its approval, excludes it under the actor's name, and closes the gate. */
  lemma WithdrawalTakesEffect(c: Catalog, subjects: seq<Subject>, id: SegmentId, actor: Actor)
    requires id in IdsOf(subjects)
    ensures var after := Decided(c, Withdraw(subjects, id, actor));
            && id !in after.approvals && id in after.exclusions && after.exclusions[id] == actor
            && OnlyChanges(c, after, id) && id in MissingOf(after, subjects)
  {
    NamesIff(subjects, id);
    MissesUnapproved(Decided(c, Withdraw(subjects, id, actor)), subjects, id);
  }

  lemma {:induction false} MissesUnapproved(c: Catalog, subjects: seq<Subject>, id: SegmentId)
    requires id in IdsOf(subjects) && id !in c.approvals
    ensures id in MissingOf(c, subjects)
  {
    if subjects[0].segmentId != id {
      var i :| 0 <= i < |subjects| && subjects[i].segmentId == id;
      assert subjects[1..][i - 1] == subjects[i];
      MissesUnapproved(c, subjects[1..], id);
    }
  }

  /** An approval by name files a record of exactly that segment and lifts its exclusion. */
  lemma ApprovalTakesEffect(c: Catalog, subjects: seq<Subject>, id: SegmentId, actor: Actor, now: Instant)
    requires id in IdsOf(subjects)
    ensures var after := Decided(c, Approve(subjects, id, actor, now));
            && id in after.approvals && id !in after.exclusions && OnlyChanges(c, after, id)
            && var record := after.approvals[id];
               && record.subject in subjects && record.subject.segmentId == id
               && record.decidedBy == actor && record.decidedAt == now && record.grant.None?
  {
    NamesIff(subjects, id);
  }

  /** Revoking the grant removes it and nothing that was approved under it. */
  lemma GrantRevocationTakesEffect(c: Catalog)
    ensures var after := Decided(c, RevokeGrant);
            && after.grant.None? && after.approvals == c.approvals && after.exclusions == c.exclusions
            && after.revision > c.revision
  {
  }

  /** A decision on a segment that does not fall back is refused and changes nothing. */
  lemma StrangersAreRefused(c: Catalog, subjects: seq<Subject>, id: SegmentId, actor: Actor, now: Instant)
    requires id !in IdsOf(subjects)
    ensures Decided(c, Approve(subjects, id, actor, now)) == c && Decided(c, Withdraw(subjects, id, actor)) == c
    ensures Refusal(c, Approve(subjects, id, actor, now)).Some? && Refusal(c, Withdraw(subjects, id, actor)).Some?
  {
    NamesIff(subjects, id);
  }

  /** From the decision on: a withdrawn segment has no live approval until a human approves it by name. */
  lemma WithdrawnStaysUnapproved(c: Catalog, subjects: seq<Subject>, id: SegmentId, actor: Actor, decisions: seq<Decision>)
    requires Valid(c) && DistinctIds(subjects) && id in IdsOf(subjects)
    requires ProperRun(decisions) && !Reapproved(decisions, id)
    ensures id !in Run(Decided(c, Withdraw(subjects, id, actor)), decisions).approvals
  {
    WithdrawalTakesEffect(c, subjects, id, actor);
    DecisionsCount(c, Withdraw(subjects, id, actor));
    WithdrawalSticks(Decided(c, Withdraw(subjects, id, actor)), decisions, id);
  }

  /** A grant of the whole queue approves exactly the subjects that were waiting for a decision. */
  lemma GrantCreatesWholeQueue(c: Catalog, subjects: seq<Subject>, actor: Actor, now: Instant, i: nat)
    requires Valid(c) && DistinctIds(subjects) && i < |subjects|
    requires Offerable(c, subjects) != []
    ensures Refusal(c, GrantBook(subjects, None, actor, now)).None?
    ensures Created(c, Decided(c, GrantBook(subjects, None, actor, now)), subjects[i].segmentId) <==> OnOffer(c, subjects[i])
    ensures Decided(c, GrantBook(subjects, None, actor, now)).grant.Some?
  {
    var d := GrantBook(subjects, None, actor, now);
    var granted := Granted(c, subjects, None).value;
    GrantedNothing(Offerable(c, subjects), None, granted);
    OfferableShape(c, subjects);
    GrantDecided(c, d);
    GrantBaseIsValid(c, d);
    ReconciledShape(GrantBase(c, d), subjects, now);
    assert subjects[i] in granted <==> OnOffer(c, subjects[i]);
    CreatedIffGranted(c, Decided(c, d), GrantBase(c, d), subjects[i], now);
  }

  // ---------------------------------------------------------------- decisions cut short

  /** One repository write; each moves the revision by one. */
  datatype Write =
    | SaveApproval(record: Approval)
    | RevokeApproval(id: SegmentId, withdrawnBy: Option<Actor>)
    | SaveGrant(grant: Grant)
    | DropGrant

  function Written(c: Catalog, write: Write): (r: Catalog)
    ensures r.revision == c.revision + 1
  {
    match write
    case SaveApproval(record) => Saved(c, record)
    case RevokeApproval(id, withdrawnBy) => Revoked(c, id, withdrawnBy)
    case SaveGrant(grant) => c.(revision := c.revision + 1, grant := Some(grant))
    case DropGrant => c.(revision := c.revision + 1, grant := None)
  }

  function WrittenAll(c: Catalog, writes: seq<Write>): Catalog
    decreases |writes|
  {
    if writes == [] then c else WrittenAll(Written(c, writes[0]), writes[1..])
  }

  /** What reconciling under `read` may write: a system invalidation, or the record of a granted subject. */
  ghost predicate Reconciles(read: Catalog, write: Write) {
    match write
    case RevokeApproval(_, withdrawnBy) => withdrawnBy.None?
    case SaveApproval(record) => Grantable(read, record.subject)
    case _ => false
  }

  /** What a decision that read `read` at its start may write. */
  ghost predicate Belongs(read: Catalog, d: Decision, write: Write) {
    match d
    case Reconcile(_, _) => Reconciles(read, write)
    case GrantBook(_, _, actor, now) =>
      write.SaveGrant? || Reconciles(read, write)
      || (Granted(read, d.subjects, d.ids).Ok? && Reconciles(GrantBase(read, d), write))
    case RevokeGrant => write.DropGrant?
    case Approve(_, id, _, _) => write.SaveApproval? && write.record.subject.segmentId == id
    case Withdraw(_, id, actor) => write == RevokeApproval(id, Some(actor))
  }

  ghost predicate AllBelong(read: Catalog, d: Decision, writes: seq<Write>) {
    forall i | 0 <= i < |writes| :: Belongs(read, d, writes[i])
  }

  ghost predicate AllReconcile(read: Catalog, writes: seq<Write>) {
    forall i | 0 <= i < |writes| :: Reconciles(read, writes[i])
  }

  lemma {:induction false} WrittenInTurn(c: Catalog, first: seq<Write>, second: seq<Write>)
    ensures WrittenAll(c, first + second) == WrittenAll(WrittenAll(c, first), second)
    decreases |first|
  {
    if first == [] {
      assert first + second == second;
    } else {
      assert (first + second)[1..] == first[1..] + second;
      WrittenInTurn(Written(c, first[0]), first[1..], second);
    }
  }

  lemma PruneWrites(c: Catalog, gone: set<SegmentId>) returns (writes: seq<Write>)
    ensures WrittenAll(c, writes) == WithoutAll(c, gone) && AllReconcile(c, writes)
    decreases |gone|
  {
    writes := [];
    if gone == {} {
      assert c.approvals - {} == c.approvals;
    } else {
      var id :| id in gone;
      var before := PruneWrites(c, gone - {id});
      var last := RevokeApproval(id, None);
      WrittenInTurn(c, before, [last]);
      WithoutOne(c, gone - {id}, id);
      assert gone - {id} + {id} == gone;
      assert WrittenAll(Written(WithoutAll(c, gone - {id}), last), []) == WithoutAll(c, gone);
      writes := before + [last];
    }
  }

  lemma SubjectWrites(read: Catalog, stored: Catalog, s: Subject, now: Instant) returns (writes: seq<Write>)
    ensures WrittenAll(stored, writes) == ReconcileOne(read, stored, s, now) && AllReconcile(read, writes)
  {
    var invalidate := RevokeApproval(s.segmentId, None);
    writes := [];
    if !Kept(read, s) {
      if s.segmentId in read.approvals { writes := [invalidate]; }
      if Grantable(read, s) {
        var save := SaveApproval(RecordFor(read, s, now));
        WrittenInTurn(stored, writes, [save]);
        assert WrittenAll(Written(stored, invalidate), []) == Written(stored, invalidate);
        writes := writes + [save];
      }
    }
  }

  lemma {:induction false} EachWrites(read: Catalog, stored: Catalog, subjects: seq<Subject>, now: Instant)
    returns (writes: seq<Write>)
    ensures WrittenAll(stored, writes) == ReconcileEach(read, stored, subjects, now) && AllReconcile(read, writes)
    decreases |subjects|
  {
    writes := [];
    if subjects != [] {
      var first := SubjectWrites(read, stored, subjects[0], now);
      var rest := EachWrites(read, ReconcileOne(read, stored, subjects[0], now), subjects[1..], now);
      WrittenInTurn(stored, first, rest);
      writes := first + rest;
    }
  }

  lemma ReconcileWrites(c: Catalog, subjects: seq<Subject>, now: Instant) returns (writes: seq<Write>)
    ensures WrittenAll(c, writes) == Reconciled(c, subjects, now) && AllReconcile(c, writes)
  {
    var pruned := Pruned(c, IdsOf(subjects));
    var first := PruneWrites(c, c.approvals.Keys - IdsOf(subjects));
    var rest := EachWrites(c, pruned, subjects, now);
    WrittenInTurn(c, first, rest);
    writes := first + rest;
  }

  lemma GrantWrites(c: Catalog, d: Decision) returns (writes: seq<Write>)
    requires d.GrantBook? && Granted(c, d.subjects, d.ids).Ok?
    ensures WrittenAll(c, writes) == Decided(c, d) && AllBelong(c, d, writes)
  {
    GrantDecided(c, d);
    var granted, base := Granted(c, d.subjects, d.ids).value, GrantBase(c, d);
    var rest := ReconcileWrites(base, d.subjects, d.now);
    writes := rest;
    if granted != {} {
      var grant := SaveGrant(Grant(d.actor, d.now, granted));
      assert Written(c, grant) == base;
      writes := [grant] + rest;
      assert writes[1..] == rest;
    }
  }

  /** Every decision is a sequence of single writes that belong to it; so every interrupted one is, too. */
  lemma DecisionIsWrites(c: Catalog, d: Decision) returns (writes: seq<Write>)
    ensures WrittenAll(c, writes) == Decided(c, d) && AllBelong(c, d, writes)
  {
    writes := [];
    if Refusal(c, d).None? {
      match d
      case Reconcile(subjects, now) => writes := ReconcileWrites(c, subjects, now);
      case GrantBook(_, _, _, _) => writes := GrantWrites(c, d);
      case RevokeGrant => writes := [DropGrant];
      case Approve(subjects, id, actor, now) => writes := [SaveApproval(Approval(SubjectFor(subjects, id), actor, now, None))];
      case Withdraw(_, id, actor) => writes := [RevokeApproval(id, Some(actor))];
    }
  }

  /** A decision and the writes it got to before it ended or the process died. */
  datatype Attempt = Attempt(decision: Decision, writes: seq<Write>)

  ghost predicate AreAttempts(c: Catalog, attempts: seq<Attempt>)
    decreases |attempts|
  {
    attempts == []
    || (AllBelong(c, attempts[0].decision, attempts[0].writes)
        && AreAttempts(WrittenAll(c, attempts[0].writes), attempts[1..]))
  }

  ghost function After(c: Catalog, attempts: seq<Attempt>): Catalog
    decreases |attempts|
  {
    if attempts == [] then c else After(WrittenAll(c, attempts[0].writes), attempts[1..])
  }

  ghost predicate NamesForApproval(d: Decision, id: SegmentId) {
    d.Approve? && d.id == id
  }

  lemma {:induction false} WritesKeepExclusion(read: Catalog, c: Catalog, d: Decision, writes: seq<Write>, id: SegmentId)
    requires Valid(c) && id in c.exclusions && id in read.exclusions && AllBelong(read, d, writes) && !NamesForApproval(d, id)
    ensures Valid(WrittenAll(c, writes)) && id in WrittenAll(c, writes).exclusions
    decreases |writes|
  {
    if writes != [] {
      assert Belongs(read, d, writes[0]);
      var rest := writes[1..];
      assert forall i | 0 <= i < |rest| :: rest[i] == writes[i + 1];
      WritesKeepExclusion(read, Written(c, writes[0]), d, rest, id);
    }
  }

  /**
   * Not even decisions cut short bring a withdrawn segment back: over any attempts, each with any of
   * its writes done, the segment stays without a live approval until a human approves it by name.
   */
  lemma {:induction false} WithdrawalSurvivesDeaths(c: Catalog, attempts: seq<Attempt>, id: SegmentId)
    requires Valid(c) && id in c.exclusions && AreAttempts(c, attempts)
    requires forall i | 0 <= i < |attempts| :: !NamesForApproval(attempts[i].decision, id)
    ensures Valid(After(c, attempts)) && id in After(c, attempts).exclusions && id !in After(c, attempts).approvals
    decreases |attempts|
  {
    if attempts != [] {
      var rest := attempts[1..];
      WritesKeepExclusion(c, c, attempts[0].decision, attempts[0].writes, id);
      assert forall i | 0 <= i < |rest| :: rest[i] == attempts[i + 1];
      WithdrawalSurvivesDeaths(WrittenAll(c, attempts[0].writes), rest, id);
    }
  }

  /** The approval filed for `id` after the decision was not there before. */
  ghost predicate Created(before: Catalog, after: Catalog, id: SegmentId) {
    id in after.approvals && (id !in before.approvals || before.approvals[id] != after.approvals[id])
  }

  /** An accepted explicit selection creates approvals for exactly the selected segments. */
  lemma GrantCreatesExactlySelected(c: Catalog, subjects: seq<Subject>, ids: seq<SegmentId>, actor: Actor, now: Instant,
                                    id: SegmentId)
    requires Valid(c) && DistinctIds(subjects)
    requires Refusal(c, GrantBook(subjects, Some(ids), actor, now)).None?
    ensures Created(c, Decided(c, GrantBook(subjects, Some(ids), actor, now)), id) <==> id in ids
  {
    var d := GrantBook(subjects, Some(ids), actor, now);
    var granted := Granted(c, subjects, Some(ids)).value;
    GrantedNothing(Offerable(c, subjects), Some(ids), granted);
    GrantDecided(c, d);
    GrantBaseIsValid(c, d);
    ReconciledShape(GrantBase(c, d), subjects, now);
    if id in IdsOf(subjects) {
      var i :| 0 <= i < |subjects| && subjects[i].segmentId == id;
      SelectedIff(c, subjects, ids, granted, i);
      CreatedIffGranted(c, Decided(c, d), GrantBase(c, d), subjects[i], now);
    } else if id in ids {
      var s := SelectedIsSubject(c, subjects, ids, id);
    }
  }

  lemma CreatedIffGranted(c: Catalog, after: Catalog, base: Catalog, s: Subject, now: Instant)
    requires Valid(c) && base.approvals == c.approvals && base.exclusions == c.exclusions && base.grant.Some?
    requires RightlyFiled(after.approvals, base, s, now)
    requires s in base.grant.value.subjects ==> OnOffer(c, s)
    ensures Created(c, after, s.segmentId) <==> s in base.grant.value.subjects
  {
  }

  lemma SelectedIsSubject(c: Catalog, subjects: seq<Subject>, ids: seq<SegmentId>, id: SegmentId) returns (s: Subject)
    requires Absent(ids, IdsOf(Offerable(c, subjects))) == [] && id in ids
    ensures s in Offerable(c, subjects) && s in subjects && OnOffer(c, s) && s.segmentId == id && id in IdsOf(subjects)
  {
    var offerable := Offerable(c, subjects);
    NothingAbsentIff(ids, IdsOf(offerable));
    OfferableShape(c, subjects);
    var k :| 0 <= k < |offerable| && offerable[k].segmentId == id;
    s := offerable[k];
  }

  /** A subject is granted exactly when its ID is selected; a selected one had no standing approval. */
  lemma SelectedIff(c: Catalog, subjects: seq<Subject>, ids: seq<SegmentId>, granted: set<Subject>, i: nat)
    requires DistinctIds(subjects) && i < |subjects|
    requires Selection(Offerable(c, subjects), ids) == Ok(granted)
    ensures subjects[i] in granted <==> subjects[i].segmentId in ids
    ensures subjects[i] in granted ==> OnOffer(c, subjects[i])
  {
    OfferableShape(c, subjects);
    if subjects[i].segmentId in ids {
      var s := SelectedIsSubject(c, subjects, ids, subjects[i].segmentId);
      var j :| 0 <= j < |subjects| && subjects[j] == s;
    }
  }
}