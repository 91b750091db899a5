/**
 * Crash-safe storage of one book (packages/epub-ingestion/src/adapter.ts).
 *
 * The store is the part of the workspace that belongs to one book ID. The caller holds the book lock,
 * so ingests of the book run one after another; each file-system operation may work, fault or be the
 * last one before the process dies. Renames are atomic.
 */
module IngestStore {
  import opened Wrappers

  type Image = nat

  /** The content a book ID is derived from. */
  datatype Publication = Publication(content: nat, cover: Option<Image>)

  /** The bytes of an upload: different packagings of one publication share its book. */
  datatype Bytes = Bytes(publication: Publication, packaging: nat)

  datatype Upload = Upload(bytes: Bytes, originalFilename: Option<string>)

  /** A stored record; every other field is a function of the uploaded bytes. */
  datatype Manifest = Manifest(bytes: Bytes, originalFilename: Option<string>)

  datatype Directory = Directory(epub: Option<Bytes>, cover: Option<Image>, pending: Option<Manifest>, committed: Option<Manifest>)

  datatype Fate = Works | Faults | Dies

  datatype Error = Conflict | Storage

  /** How a method ends: with a value, with an exception, or with the process. */
  datatype Outcome<T> = Ended(value: T) | Threw(error: Error) | Died

  function RecordOf(upload: Upload): Manifest {
    Manifest(upload.bytes, upload.originalFilename)
  }

  /** The record is the one this upload produces, up to the stored file name, and its files are there. */
  predicate Proves(d: Directory, record: Option<Manifest>, upload: Upload) {
    && record.Some? && record.value.bytes == upload.bytes && d.epub == Some(upload.bytes)
    && (upload.bytes.publication.cover.Some? ==> d.cover == upload.bytes.publication.cover)
  }

  predicate CompleteFor(d: Directory, record: Manifest, publication: Publication) {
    record.bytes.publication == publication && d.epub == Some(record.bytes) && d.cover == publication.cover
  }

  /** A target holds one manifest, pending or committed, and the files it describes. */
  predicate GoodTarget(d: Directory, publication: Publication) {
    match (d.pending, d.committed)
    case (Some(record), None) => CompleteFor(d, record, publication)
    case (None, Some(record)) => CompleteFor(d, record, publication)
    case _ => false
  }

  predicate Committed(target: Option<Directory>) {
    target.Some? && target.value.committed.Some?
  }

  predicate CommittedAs(target: Option<Directory>, record: Manifest, publication: Publication) {
    target.Some? && target.value.committed == Some(record) && CompleteFor(target.value, record, publication)
  }

  /** The operations of a commit up to and including the rename of its manifest. */
  function CommitOps(upload: Upload): nat {
    if upload.bytes.publication.cover.Some? then 6 else 5
  }

  function OutcomeOf(f: Fate): Outcome<()> {
    match f
    case Works => Ended(())
    case Faults => Threw(Storage)
    case Dies => Died
  }

  predicate WorkUntil(fate: nat -> Fate, first: nat, end: nat) {
    forall k | first <= k < end :: fate(k) == Works
  }

  /** Making the rename durable faults, and the rollback gets as far as its own rename. */
  predicate Vanishes(fate: nat -> Fate, renamed: nat) {
    fate(renamed) == Faults && fate(renamed + 1) == Works && fate(renamed + 2) == Works
  }

  class BookStore {
    const publication: Publication
    const fate: nat -> Fate
    var clock: nat
    var target: Option<Directory>
    var staging: map<nat, Directory>
    var quarantine: map<nat, Directory>

    constructor (publication: Publication, fate: nat -> Fate)
      ensures Valid() && target.None? && this.publication == publication && this.fate == fate && clock == 0
    {
      this.publication, this.fate := publication, fate;
      clock, target, staging, quarantine := 0, None, map[], map[];
    }

    predicate Valid()
      reads this
    {
      target.Some? ==> GoodTarget(target.value, publication)
    }

    ghost predicate NothingFails() {
      forall k: nat :: fate(k) == Works
    }

    /** The next file-system operation: what becomes of it. */
    method Operate() returns (f: Fate)
      modifies this`clock
      ensures f == fate(old(clock)) && clock == old(clock) + 1
    {
      f := fate(clock);
      clock := clock + 1;
    }

    function ManifestIn(d: Directory, committed: bool): Option<Manifest> {
      if committed then d.committed else d.pending
    }

    method VerifyExisting(upload: Upload, committed: bool) returns (r: Outcome<Manifest>)
      requires target.Some?
      modifies this`clock
      ensures r.Ended? ==> Proves(target.value, ManifestIn(target.value, committed), upload)
      ensures r.Ended? ==> Some(r.value) == ManifestIn(target.value, committed)
      ensures NothingFails() ==> if Proves(target.value, ManifestIn(target.value, committed), upload) then r.Ended? else r.Threw?
      ensures NothingFails() && Valid() && ManifestIn(target.value, committed).Some? && r.Threw? ==> r.error == Conflict
    {
      var f := Operate();
      if f == Dies { return Died; }
      if f == Faults { return Threw(Storage); }
      var d, record := target.value, ManifestIn(target.value, committed);
      if record.None? || d.epub.None? { return Threw(Storage); }
      if record.value != Manifest(upload.bytes, record.value.originalFilename) || d.epub != Some(upload.bytes) {
        return Threw(Conflict);
      }
      if upload.bytes.publication.cover.Some? {
        if d.cover.None? { return Threw(Storage); }
        if d.cover != upload.bytes.publication.cover { return Threw(Conflict); }
      }
      return Ended(record.value);
    }

    /** Clears the target with one rename; the residue in quarantine is then removed. */
    method DiscardTarget(token: nat, ownCommit: bool) returns (r: Outcome<()>)
      requires target.Some?
      modifies this`clock, this`target, this`quarantine
      ensures r.Ended? ==> target.None?
      ensures target == old(target) || target.None?
      ensures !ownCommit && Committed(old(target)) ==> target == old(target) && !r.Ended?
      ensures NothingFails() && (ownCommit || !Committed(old(target))) ==> r.Ended?
      ensures ownCommit ==> (target.None? <==> fate(old(clock)) == Works && fate(old(clock) + 1) == Works)
    {
      var f := Operate();
      if f == Dies { return Died; }
      if f == Faults { return Threw(Storage); }
      if !ownCommit && target.value.committed.Some? { return Threw(Conflict); }
      f := Operate();
      if f == Dies { return Died; }
      if f == Faults { return Threw(Storage); }
      quarantine := quarantine[token := target.value];
      target := None;
      f := Operate();
      if f == Dies { return Died; }
      if f == Faults { return Threw(Storage); }
      quarantine := quarantine - {token};
      f := Operate();
      if f == Dies { return Died; }
      if f == Faults { return Threw(Storage); }
      return Ended(());
    }

    /** Promotes a pending record of an interrupted commit once it is proven to be this upload's. */
    method Promote(upload: Upload) returns (r: Outcome<Manifest>)
      requires Valid() && target.Some? && target.value.pending.Some?
      modifies this`clock, this`target
      ensures Valid() && target.Some?
      ensures target == old(target) || CommittedAs(target, old(target).value.pending.value, publication)
      ensures r.Ended? ==> CommittedAs(target, r.value, publication) && r.value.bytes == upload.bytes
      ensures r.Ended? ==> Some(r.value) == old(target).value.pending
      ensures NothingFails() ==>
                if Proves(old(target).value, old(target).value.pending, upload) then r.Ended? else r.Threw? && target == old(target)
    {
      r := VerifyExisting(upload, false);
      if !r.Ended? { return; }
      var f := Operate();
      if f == Dies { return Died; }
      if f == Faults { return Threw(Storage); }
      target := Some(target.value.(committed := target.value.pending, pending := None));
      f := Operate();
      if f == Dies { return Died; }
      if f == Faults { return Threw(Storage); }
      r := VerifyExisting(upload, true);
    }

    /** The stored record, if this upload's book is already there; unusable leftovers are discarded. */
    method RecoverTarget(upload: Upload, token: nat) returns (r: Outcome<Option<Manifest>>)
      requires Valid()
      modifies this`clock, this`target, this`quarantine
      ensures Valid()
      ensures Committed(old(target)) ==> target == old(target)
      ensures r == Ended(None) ==> target.None?
      ensures r.Ended? && r.value.Some? ==> CommittedAs(target, r.value.value, publication) && r.value.value.bytes == upload.bytes
      ensures NothingFails() ==>
        match old(target)
        case None => r == Ended(None)
        case Some(d) =>
          if d.committed.Some? then r == if Proves(d, d.committed, upload) then Ended(d.committed) else Threw(Conflict)
          else r == if Proves(d, d.pending, upload) then Ended(d.pending) else Ended(None)
    {
      var f := Operate();
      if f == Dies { return Died; }
      if f == Faults { return Threw(Storage); }
      if target.None? { return Ended(None); }
      if target.value.committed.Some? {
        f := Operate();
        if f == Dies { return Died; }
        if f == Faults { return Threw(Storage); }
        var verified := VerifyExisting(upload, true);
        match verified {
          case Ended(record) => return Ended(Some(record));
          case Threw(error) => return Threw(error);
          case Died => return Died;
        }
      }
      if target.value.pending.Some? {
        var promoted := Promote(upload);
        match promoted {
          case Ended(record) => return Ended(Some(record));
          case Threw(_) =>
          case Died => return Died;
        }
      }
      var discarded := DiscardTarget(token, false);
      match discarded {
        case Ended(_) => return Ended(None);
        case Threw(error) => return Threw(error);
        case Died => return Died;
      }
    }

    /** One operation whose failure ends the commit. */
    method Attempt() returns (r: Outcome<()>)
      modifies this`clock
      ensures r == OutcomeOf(fate(old(clock))) && clock == old(clock) + 1
    {
      var f := Operate();
      return OutcomeOf(f);
    }

    /** Builds the book in staging, under the directory that only this ingest uses. */
    method Stage(upload: Upload, token: nat) returns (r: Outcome<()>)
      modifies this`clock, this`staging
      ensures r.Ended? <==> WorkUntil(fate, old(clock), old(clock) + CommitOps(upload) - 2)
      ensures r.Ended? ==> clock == old(clock) + CommitOps(upload) - 2 && token in staging
      ensures r.Ended? ==>
        staging[token] == Directory(Some(upload.bytes), upload.bytes.publication.cover, Some(RecordOf(upload)), None)
    {
      r := Attempt();
      if !r.Ended? { return; }
      staging := staging[token := Directory(None, None, None, None)];
      r := Attempt();
      if !r.Ended? { return; }
      staging := staging[token := staging[token].(epub := Some(upload.bytes))];
      if upload.bytes.publication.cover.Some? {
        r := Attempt();
        if !r.Ended? { return; }
        staging := staging[token := staging[token].(cover := upload.bytes.publication.cover)];
      }
      r := Attempt();
      if r.Ended? {
        staging := staging[token := staging[token].(pending := Some(RecordOf(upload)))];
      }
    }

    /** Stages the book, moves it into place, and publishes its manifest. */
    method StageAndCommit(upload: Upload, token: nat) returns (r: Outcome<()>, ownsTarget: bool)
      requires Valid() && target.None? && upload.bytes.publication == publication
      modifies this`clock, this`target, this`staging
      ensures Valid() && (ownsTarget <==> target.Some?)
      ensures r.Ended? ==> CommittedAs(target, RecordOf(upload), publication)
      ensures var renamed := old(clock) + CommitOps(upload);
              if WorkUntil(fate, old(clock), renamed) then
                && CommittedAs(target, RecordOf(upload), publication) && clock == renamed + 1 && r == OutcomeOf(fate(renamed))
              else
                !r.Ended? && !Committed(target)
    {
      ownsTarget := false;
      r := Stage(upload, token);
      if !r.Ended? { return; }
      r := Attempt();
      if !r.Ended? { return; }
      target, staging := Some(staging[token]), staging - {token};
      ownsTarget := true;
      r := Attempt();
      if !r.Ended? { return; }
      target := Some(target.value.(committed := target.value.pending, pending := None));
      r := Attempt();
    }

    /**
     * A commit that fails is rolled back, even when its manifest was already renamed. So a manifest it
     * published is gone at the end exactly when the next operation faults and the rollback's own two
     * operations up to its rename work; whoever looks in between has seen a committed book vanish.
     */
    method CommitNewTarget(upload: Upload, token: nat) returns (r: Outcome<Manifest>)
      requires Valid() && target.None? && upload.bytes.publication == publication
      modifies this`clock, this`target, this`staging, this`quarantine
      ensures Valid()
      ensures r.Ended? ==> r.value == RecordOf(upload) && CommittedAs(target, RecordOf(upload), publication)
      ensures r.Ended? <==> WorkUntil(fate, old(clock), old(clock) + CommitOps(upload) + 1)
      ensures var renamed := old(clock) + CommitOps(upload);
              if WorkUntil(fate, old(clock), renamed) then
                if Vanishes(fate, renamed) then target.None? else CommittedAs(target, RecordOf(upload), publication)
              else
                !Committed(target)
    {
      var committed, ownsTarget := StageAndCommit(upload, token);
      match committed
      case Ended(_) => return Ended(RecordOf(upload));
      case Died => return Died;
      case Threw(error) =>
        var rolledBack: Outcome<()> := Ended(());
        if ownsTarget {
          rolledBack := DiscardTarget(token, true);
          if rolledBack.Died? { return Died; }
        }
        var f := Operate();
        if f == Dies { return Died; }
        if f == Works { staging := staging - {token}; }
        return Threw(if rolledBack.Threw? then Storage else error);
    }

    method Ingest(upload: Upload, token: nat) returns (r: Outcome<Manifest>)
      requires Valid() && upload.bytes.publication == publication
      modifies this`clock, this`target, this`staging, this`quarantine
      ensures Valid()
      ensures Ingested(publication, old(target), upload, r, target)
      ensures NothingFails() ==> Converges(publication, old(target), upload, r, target)
    {
      var recovered := RecoverTarget(upload, token);
      match recovered
      case Threw(error) => return Threw(error);
      case Died => return Died;
      case Ended(stored) =>
        if stored.Some? { return Ended(stored.value); }
        r := CommitNewTarget(upload, token);
    }
  }

  // ---------------------------------------------------------------- a published manifest that vanishes

  /** One commit on an empty target: `published` is whether its manifest got renamed, `midway` what was there then. */
  method CommitFresh(upload: Upload, fate: nat -> Fate)
    returns (published: bool, midway: Option<Directory>, r: Outcome<Manifest>, after: Option<Directory>)
    ensures published <==> CommittedAs(midway, RecordOf(upload), upload.bytes.publication)
    ensures published <==> WorkUntil(fate, 0, CommitOps(upload))
    ensures Committed(after) <==> published && !Vanishes(fate, CommitOps(upload))
    ensures r.Ended? <==> published && fate(CommitOps(upload)) == Works
    ensures r.Ended? ==> r.value == RecordOf(upload) && CommittedAs(after, r.value, upload.bytes.publication)
  {
    var staged := new BookStore(upload.bytes.publication, fate);
    var outcome, owns := staged.StageAndCommit(upload, 0);
    midway, published := staged.target, Committed(staged.target);
    var store := new BookStore(upload.bytes.publication, fate);
    r := store.CommitNewTarget(upload, 0);
    after := store.target;
  }

  /** A fault right after the manifest rename makes the committed book vanish. */
  method PublishedManifestVanishes(upload: Upload) returns (midway: Option<Directory>, r: Outcome<Manifest>, after: Option<Directory>)
    ensures CommittedAs(midway, RecordOf(upload), upload.bytes.publication) && !r.Ended? && after.None?
  {
    var renamed := CommitOps(upload);
    var fate := (k: nat) => if k == renamed then Faults else Works;
    var staged := new BookStore(upload.bytes.publication, fate);
    var outcome, owns := staged.StageAndCommit(upload, 0);
    midway := staged.target;
    var store := new BookStore(upload.bytes.publication, fate);
    r := store.CommitNewTarget(upload, 0);
    after := store.target;
  }

  // ---------------------------------------------------------------- what one ingest may do

  /**
   * Whatever faults or dies: a target that was committed when the lock was taken is not touched, and a
   * returned record is committed with the upload's EPUB and cover.
   */
  predicate Ingested(publication: Publication, before: Option<Directory>, upload: Upload, r: Outcome<Manifest>,
                     after: Option<Directory>) {
    && (after.Some? ==> GoodTarget(after.value, publication))
    && (Committed(before) ==> after == before)
    && (r.Ended? ==> CommittedAs(after, r.value, publication) && r.value.bytes == upload.bytes)
  }

  /** Without faults: the upload's record is returned, or another upload is already committed. */
  predicate Converges(publication: Publication, before: Option<Directory>, upload: Upload, r: Outcome<Manifest>,
                      after: Option<Directory>) {
    if Committed(before) && before.value.committed.value.bytes != upload.bytes
    then r == Threw(Conflict) && after == before
    else r.Ended? && r.value.bytes == upload.bytes && CommittedAs(after, r.value, publication)
         && r.value.originalFilename == (if KeepsStored(before, upload) then StoredIn(before.value).originalFilename
                                         else upload.originalFilename)
  }

  function StoredIn(d: Directory): Manifest
    requires d.committed.Some? || d.pending.Some?
  {
    if d.committed.Some? then d.committed.value else d.pending.value
  }

  /** A record of the same bytes, committed or pending, is kept with the file name it was stored under. */
  predicate KeepsStored(before: Option<Directory>, upload: Upload) {
    && before.Some? && (before.value.committed.Some? || before.value.pending.Some?)
    && StoredIn(before.value).bytes == upload.bytes
  }

  // ---------------------------------------------------------------- any sequence of ingests

  datatype Run = Run(upload: Upload, outcome: Outcome<Manifest>, after: Option<Directory>)

  predicate IsHistory(publication: Publication, first: Option<Directory>, runs: seq<Run>)
    decreases |runs|
  {
    runs == [] || (
      && Ingested(publication, first, runs[0].upload, runs[0].outcome, runs[0].after)
      && IsHistory(publication, runs[0].after, runs[1..]))
  }

  lemma {:induction false} CommittedStays(publication: Publication, first: Option<Directory>, runs: seq<Run>, k: nat)
    requires IsHistory(publication, first, runs) && Committed(first) && k < |runs|
    ensures runs[k].after == first
    ensures runs[k].outcome.Ended? ==> Some(runs[k].outcome.value) == first.value.committed
    decreases |runs|
  {
    if k > 0 {
      CommittedStays(publication, runs[0].after, runs[1..], k - 1);
    }
  }

  /**
   * Once an ingest has returned a record, the target is never altered again by any ingests of any
   * uploads with any faults and deaths, and every later successful ingest returns that same record.
   */
  lemma {:induction false} ReturnedIsForever(publication: Publication, first: Option<Directory>, runs: seq<Run>, m: nat, n: nat)
    requires IsHistory(publication, first, runs) && m < n < |runs| && runs[m].outcome.Ended?
    ensures runs[n].after == runs[m].after
    ensures CommittedAs(runs[n].after, runs[m].outcome.value, publication)
    ensures runs[n].outcome.Ended? ==> runs[n].outcome.value == runs[m].outcome.value
    decreases |runs|
  {
    if m == 0 {
      CommittedStays(publication, runs[0].after, runs[1..], n - 1);
    } else {
      ReturnedIsForever(publication, runs[0].after, runs[1..], m - 1, n - 1);
    }
  }
}
