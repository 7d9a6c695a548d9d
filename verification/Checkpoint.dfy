/** The external signed checkpoint of the audit chain and the stores that share its file.

    Signing keys are numbers and a signature is ideal: a body is either a document signed with a
    known key, or something no key signed.  File operations may fail without effect. */
module Checkpoint {
  import opened AuditEncoding
  import opened AuditChain
  import opened AuditLog
  import opened Wrappers

  datatype Document = Document(eventID: nat, digest: Text, signedAt: int)

  datatype Body = Signed(document: Document, key: nat) | Unsigned

  /** The checkpoint names the last event of this chain, or its anchor when no event is left. */
  ghost predicate Describes(document: Document, chain: Chain) {
    document.eventID == LastID(chain.rows) && document.digest == chain.tail
  }

  lemma LastIsGreatest(chain: Chain, eventID: nat, digest: Text)
    requires Indexed(chain) && Holds(chain, eventID, digest)
    ensures eventID <= LastID(chain.rows)
  {
  }

  /** A document written from a chain that verifies is a checkpoint of that chain. */
  lemma DescribedHolds(platform: Platform, chain: Chain, document: Document)
    requires Verifies(platform, chain) && Indexed(chain) && Describes(document, chain)
    ensures Holds(chain, document.eventID, document.digest)
  {
    if chain.rows != [] {
      assert LinkedAt(platform, chain.anchor, chain.rows, |chain.rows| - 1);
    }
  }

  /** The file goes back behind what a store has trusted, or contradicts it. */
  predicate Regresses(document: Document, trusted: Document) {
    document.eventID < trusted.eventID || (document.eventID == trusted.eventID && document.digest != trusted.digest)
  }

  /** How the continuity event of a restore names the two checkpoints: texts and digests. */
  datatype RestoreNotes = RestoreNotes(result: (nat, nat, Text) -> Text, revision: nat -> Text, digest: Body -> Text)

  const RESTORE_ACTION: Text := "state_backup.restore"

  /** The checkpoint file and the signing-key file beside it. */
  class CheckpointFiles {
    const reliable: bool  // no file operation fails
    var body: Option<Body>
    var key: Option<nat>
    ghost var ids: seq<nat>  // the event IDs of all checkpoints written, in order

    constructor (reliable: bool)
      ensures this.reliable == reliable && body.None? && key.None? && ids == []
    {
      this.reliable, body, key, ids := reliable, None, None, [];
    }

    /** What holds while only stores write these files: a checkpoint never exists without its key. */
    ghost predicate Untampered()
      reads this
    {
      match body
      case None => ids == []
      case Some(b) => b.Signed? && key == Some(b.key) && ids != [] && ids[|ids| - 1] == b.document.eventID
    }
  }

  /** A signing key without a checkpoint, as a crash or failure during the first start leaves it. */
  predicate LockedOut(files: CheckpointFiles)
    reads files
  {
    files.key.Some? && files.body.None?
  }

  /** The checkpoint in the file belongs to the chain. */
  ghost predicate FileHolds(files: CheckpointFiles, chain: Chain)
    reads files
  {
    files.body.Some? && files.body.value.Signed? ==>
      Holds(chain, files.body.value.document.eventID, files.body.value.document.digest)
  }

  /** A store trusts the document in the file. */
  ghost predicate FileShows(files: CheckpointFiles, trusted: Option<Document>)
    reads files
  {
    files.body.Some? && files.body.value.Signed? && trusted == Some(files.body.value.document)
  }

  ghost predicate Ascending(ids: seq<nat>) {
    forall i, j | 0 <= i <= j < |ids| :: ids[i] <= ids[j]
  }

  class CheckpointStore {
    const files: CheckpointFiles
    const log: AuditLog
    const notes: RestoreNotes
    const readOnly: bool
    const privateKey: nat
    var newKey: bool
    var trusted: Option<Document>

    /** `New`: None when a needed key file is missing. */
    static method Open(files: CheckpointFiles, log: AuditLog, notes: RestoreNotes, readOnly: bool, generated: nat)
      returns (store: CheckpointStore?)
      ensures store == null <==> files.key.None? && (files.body.Some? || readOnly)
      ensures store != null ==> fresh(store) && store.Opened(files, log) && store.trusted.None?
    {
      if files.key.None? && (files.body.Some? || readOnly) { return null; }
      store := new CheckpointStore(files, log, notes, readOnly, generated);
    }

    constructor (files: CheckpointFiles, log: AuditLog, notes: RestoreNotes, readOnly: bool, generated: nat)
      requires files.key.None? ==> !readOnly
      ensures Opened(files, log) && trusted.None?
    {
      this.files, this.log, this.notes, this.readOnly := files, log, notes, readOnly;
      privateKey := if files.key.Some? then files.key.value else generated;
      newKey, trusted := files.key.None?, None;
    }

    ghost predicate Opened(files: CheckpointFiles, log: AuditLog)
      reads this, files
    {
      this.files == files && this.log == log && (newKey || files.key == Some(privateKey)) && (newKey ==> !readOnly)
    }

    ghost predicate Valid()
      reads this, files, log
    {
      Opened(files, log) && log.Valid()
    }

    /** `verifyDocument`: the body carries a signature of this store's key. */
    predicate Authentic(body: Body) {
      body.Signed? && body.key == privateKey
    }

    /** `writeCheckpoint`: an atomic replacement; a failure leaves the old file. */
    method WriteCheckpoint(verification: Verification, now: int) returns (written: bool)
      modifies this`trusted, files`body, files`ids
      ensures written ==> trusted == Some(Document(verification.lastID, verification.lastHash, now))
      ensures written ==>
                files.body == Some(Signed(trusted.value, privateKey)) &&
                files.ids == old(files.ids) + [verification.lastID]
      ensures !written ==> trusted == old(trusted) && files.body == old(files.body) && files.ids == old(files.ids)
      ensures files.reliable ==> written
    {
      var failed: bool := *;
      if failed && !files.reliable { return false; }
      var document := Document(verification.lastID, verification.lastHash, now);
      files.body, files.ids := Some(Signed(document, privateKey)), files.ids + [document.eventID];
      trusted := Some(document);
      return true;
    }

    /** `bootstrap`: the key file is created exclusively, then the first checkpoint is written.  When that
        fails the key file is removed, unless the removal fails or the process dies first. */
    method Bootstrap(verification: Verification, now: int) returns (done: bool)
      requires newKey
      modifies this, files
      ensures !newKey ==> files.key == Some(privateKey)
      ensures done ==>
                old(files.key).None? && !newKey &&
                trusted == Some(Document(verification.lastID, verification.lastHash, now))
      ensures done ==>
                files.body == Some(Signed(trusted.value, privateKey)) &&
                files.ids == old(files.ids) + [verification.lastID]
      ensures !done ==>
                newKey && files.body == old(files.body) && files.ids == old(files.ids) && trusted == old(trusted)
      ensures !done ==> files.key == old(files.key) || (old(files.key).None? && files.key == Some(privateKey))
      ensures files.reliable ==> (done <==> old(files.key).None?)
    {
      var failed: bool := *;
      if (failed && !files.reliable) || files.key.Some? { return false; }
      files.key := Some(privateKey);
      done := WriteCheckpoint(verification, now);
      if !done {
        var removed: bool := *;
        if removed { files.key := None; }
        return;
      }
      newKey := false;
    }

    method VerifyOrBootstrap(now: int) returns (ok: bool)
      requires Valid()
      modifies this, files
      ensures Valid()
      ensures ok ==>
                trusted.Some? && Verifies(log.platform, log.chain) &&
                Holds(log.chain, trusted.value.eventID, trusted.value.digest)
      ensures ok ==> files.body.Some? && Authentic(files.body.value) && files.body.value.document == trusted.value
      ensures old(files.body).Some? || !ok ==> files.body == old(files.body) && files.ids == old(files.ids)
      ensures files.key == old(files.key) ||
              (old(files.key).None? && files.key == Some(privateKey) && (!ok ==> LockedOut(files)))
      ensures old(files.body).Some? || old(LockedOut(files)) || (!ok && files.reliable) ==> files.key == old(files.key)
      ensures old(LockedOut(files)) ==> !ok
      ensures ok && old(files.body).None? ==>
                files.ids == old(files.ids) + [trusted.value.eventID] && files.key == Some(privateKey)
      ensures !ok ==> trusted == old(trusted)
      ensures old(files.body).Some? ==> (ok <==> Genuine(old(files.body).value, log.chain))
      ensures old(files.body).None? && files.reliable ==>
                (ok <==> !readOnly && old(newKey) && old(files.key).None? && Verifies(log.platform, log.chain))
    {
      if files.body.None? {
        if readOnly || !newKey { return false; }
        var verification := log.Verify();
        if verification.None? { return false; }
        ok := Bootstrap(verification.value, now);
        if ok { DescribedHolds(log.platform, log.chain, trusted.value); }
        return;
      }
      var body := files.body.value;
      if !Authentic(body) { return false; }
      ok := VerifyWith(body.document);
      if ok { trusted := Some(body.document); }
    }

    /** The body is a checkpoint of this chain, which verifies. */
    ghost predicate Genuine(body: Body, chain: Chain) {
      Authentic(body) && Verifies(log.platform, chain) && Holds(chain, body.document.eventID, body.document.digest)
    }

    /** `VerifyWithCheckpoint`: the whole chain and the document against one snapshot. */
    method VerifyWith(document: Document) returns (ok: bool)
      requires log.Valid()
      ensures ok <==> Verifies(log.platform, log.chain) && Holds(log.chain, document.eventID, document.digest)
    {
      var verification := log.Verify();
      if verification.None? { return false; }
      ok := log.VerifyCheckpoint(document.eventID, document.digest);
    }

    /** `Write`, under the file lock, whatever the file holds -- also after someone replaced it. */
    method Write(now: int) returns (ok: bool)
      requires Valid()
      modifies this, files
      ensures Valid()
      ensures ok ==>
                trusted.Some? && Describes(trusted.value, log.chain) &&
                files.body == Some(Signed(trusted.value, privateKey))
      ensures ok ==> Verifies(log.platform, log.chain) && Holds(log.chain, trusted.value.eventID, trusted.value.digest)
      ensures ok ==> files.ids == old(files.ids) + [trusted.value.eventID]
      ensures ok && old(files.key).Some? ==>
                && old(files.body).Some? && Authentic(old(files.body).value)
                && old(files.body).value.document.eventID <= trusted.value.eventID
                && files.key == old(files.key)
      ensures ok && old(files.key).None? ==> old(newKey) && files.key == Some(privateKey)
      ensures !ok ==> files.body == old(files.body) && files.ids == old(files.ids)
      ensures files.key == old(files.key) || (old(newKey) && old(files.key).None? && files.key == Some(privateKey))
      ensures !ok && files.reliable ==> files.key == old(files.key)
      ensures old(LockedOut(files)) ==> !ok
      ensures files.reliable ==>
                (ok <==> !readOnly && Verifies(log.platform, log.chain) &&
                         if old(newKey) then old(files.key).None?
                         else old(trusted).Some? && old(files.body).Some? &&
                              Genuine(old(files.body).value, log.chain) &&
                              !Regresses(old(files.body).value.document, old(trusted).value))
      ensures !ok ==> trusted == old(trusted) || FileShows(files, trusted)
      // the event ID that a store trusts never goes back
      ensures old(trusted).Some? && !old(newKey) ==>
                trusted.Some? && old(trusted).value.eventID <= trusted.value.eventID
    {
      if readOnly { return false; }
      if newKey {
        var verification := log.Verify();
        if verification.None? { return false; }
        ok := Bootstrap(verification.value, now);
        if ok { DescribedHolds(log.platform, log.chain, trusted.value); }
        return;
      }
      if trusted.None? || files.body.None? || !Authentic(files.body.value) { return false; }
      var document := files.body.value.document;
      if document != trusted.value && Regresses(document, trusted.value) { return false; }
      var verification := log.Verify();
      if verification.None? { return false; }
      var holds := log.VerifyCheckpoint(document.eventID, document.digest);
      if !holds { return false; }
      trusted := Some(document);
      LastIsGreatest(log.chain, document.eventID, document.digest);
      ok := WriteCheckpoint(verification.value, now);
      if ok { DescribedHolds(log.platform, log.chain, trusted.value); }
    }

    /** The event that is appended: the caller's, with the two checkpoints named in it. */
    function Continuity(event: Event, previousBody: Body, backupBody: Body): Event
      requires previousBody.Signed? && backupBody.Signed?
    {
      var previous, backup := previousBody.document, backupBody.document;
      event.(details := event.details.(
        result := notes.result(previous.eventID, backup.eventID, notes.digest(backupBody)),
        revision := notes.revision(previous.eventID),
        resourceDigest := notes.digest(previousBody)))
    }

    /** `ReanchorRestoredState`: the only transition that may lower the checkpoint. */
    method Reanchor(previousBody: Body, backupBody: Body, event: Event, now: int) returns (ok: bool)
      requires Valid()
      modifies this, files, log
      ensures log.Valid()
      ensures ok ==>
                !readOnly && old(files.body) == Some(previousBody) && Authentic(previousBody) && Authentic(backupBody)
      ensures ok ==> event.details.action == RESTORE_ACTION && old(trusted) == Some(previousBody.document)
      ensures ok ==> Genuine(backupBody, old(log.chain))
      ensures ok ==>
                Appended(log.platform, old(log.chain), Continuity(event, previousBody, backupBody)) == Some(log.chain)
      ensures ok ==> Verifies(log.platform, log.chain) && trusted.Some? && Describes(trusted.value, log.chain)
      ensures ok ==> Holds(log.chain, backupBody.document.eventID, backupBody.document.digest)
      ensures ok ==> files.body == Some(Signed(trusted.value, privateKey))
      ensures ok ==> backupBody.document.eventID < trusted.value.eventID
      ensures !ok ==> files.body == old(files.body) && files.ids == old(files.ids) && trusted == old(trusted)
      ensures files.reliable && log.reliable && Canonical(log.platform, event.occurredAt) ==>
                (ok <==> && !readOnly && old(trusted).Some? && event.details.action == RESTORE_ACTION
                         && old(files.body) == Some(previousBody) && Authentic(previousBody)
                         && previousBody.document == old(trusted).value && Genuine(backupBody, old(log.chain))
                         && ValidResource(log.platform.redact(Continuity(event, previousBody, backupBody).details)))
    {
      if readOnly || trusted.None? || event.details.action != RESTORE_ACTION { return false; }
      if files.body != Some(previousBody) || !Authentic(previousBody) { return false; }
      if previousBody.document != trusted.value || !Authentic(backupBody) { return false; }
      var holds := VerifyWith(backupBody.document);
      if !holds { return false; }
      LastIsGreatest(log.chain, backupBody.document.eventID, backupBody.document.digest);
      assert LastID(log.chain.rows) < log.chain.nextID;
      var id := log.Append(Continuity(event, previousBody, backupBody));
      if id.None? { return false; }
      var verification := log.Verify();
      if verification.None? { return false; }
      ok := WriteCheckpoint(verification.value, now);
    }
  }

  datatype Step =
    | Start(store: nat)
    | Refresh(store: nat)
    | Record(events: seq<Event>, commit: bool)
    | Expire(store: nat, cutoff: int, unsafe: set<nat>)
    | Replace(chain: Chain)

  /** What a store trusts is not ahead of the file. */
  ghost predicate Follows(store: CheckpointStore, files: CheckpointFiles)
    reads store, files
  {
    store.trusted.Some? ==>
      files.body.Some? && files.body.value.Signed? && store.trusted.value.eventID <= files.body.value.document.eventID
  }

  ghost predicate Together(files: CheckpointFiles, log: AuditLog, stores: seq<CheckpointStore>)
    reads files, log, stores
  {
    files.Untampered() && Ascending(files.ids) && log.Valid() &&
    forall store | store in stores :: store.Opened(files, log) && Follows(store, files)
  }

  /** The file and every store name an event, not the anchor. */
  ghost predicate NamesEvents(files: CheckpointFiles, stores: seq<CheckpointStore>)
    reads files, stores
  {
    && files.body.Some? && files.body.value.Signed? && files.body.value.document.eventID > 0
    && forall store | store in stores :: store.trusted.Some? && store.trusted.value.eventID > 0
  }

  /** Any number of stores over one pair of files, taking turns under the file lock, while transactions are
      recorded, expired events are removed as one store asks for it, and the chain is replaced behind
      their backs by any other: the event IDs written to the file never go down.  A checkpoint of an event
      stays one of the chain unless the chain is replaced.  A key without a checkpoint, which only a failure
      leaves behind, stays without one for good. */
  method AnyStores(files: CheckpointFiles, log: AuditLog, stores: seq<CheckpointStore>, steps: seq<Step>)
    requires Together(files, log, stores)
    requires forall step | step in steps :: (step.Start? || step.Refresh? || step.Expire?) ==> step.store < |stores|
    requires forall step | step in steps :: step.Replace? ==> Indexed(step.chain)
    modifies files, log, stores
    ensures Together(files, log, stores) && old(files.ids) <= files.ids
    ensures old(FileHolds(files, log.chain)) &&
            (forall step | step in steps :: step.Start? || step.Refresh? || step.Record?) ==>
              FileHolds(files, log.chain)
    ensures old(FileHolds(files, log.chain) && NamesEvents(files, stores)) &&
            (forall step | step in steps :: !step.Replace?) ==>
              FileHolds(files, log.chain) && NamesEvents(files, stores)
    ensures old(LockedOut(files)) ==> LockedOut(files)
    ensures files.reliable && LockedOut(files) ==> old(LockedOut(files))
  {
    for i := 0 to |steps|
      invariant Together(files, log, stores) && old(files.ids) <= files.ids
      invariant old(FileHolds(files, log.chain)) &&
                (forall step | step in steps :: step.Start? || step.Refresh? || step.Record?) ==>
                  FileHolds(files, log.chain)
      invariant old(FileHolds(files, log.chain) && NamesEvents(files, stores)) &&
                (forall step | step in steps :: !step.Replace?) ==>
                  FileHolds(files, log.chain) && NamesEvents(files, stores)
      invariant old(LockedOut(files)) ==> LockedOut(files)
      invariant files.reliable && LockedOut(files) ==> old(LockedOut(files))
    {
      assert steps[i] in steps;
      match steps[i] {
        case Start(index) =>
          VerifyTurn(files, log, stores, index, i);
        case Refresh(index) =>
          WriteTurn(files, log, stores, index, i);
        case Record(events, commit) =>
          RecordEvents(files, log, events, commit);
        case Expire(index, cutoff, unsafe) =>
          assert stores[index] in stores;
          var _ := ExpireFor(files, log, stores[index], cutoff, unsafe);
        case Replace(chain) =>
          log.chain := chain;
      }
    }
  }

  /** One store verifies or bootstraps; the others keep what they hold. */
  method VerifyTurn(files: CheckpointFiles, log: AuditLog, stores: seq<CheckpointStore>, index: nat, now: int)
    requires Together(files, log, stores) && index < |stores|
    modifies files, stores
    ensures Together(files, log, stores) && old(files.ids) <= files.ids
    ensures old(FileHolds(files, log.chain)) ==> FileHolds(files, log.chain)
    ensures old(NamesEvents(files, stores)) ==> NamesEvents(files, stores)
    ensures old(LockedOut(files)) ==> LockedOut(files)
    ensures files.reliable && LockedOut(files) ==> old(LockedOut(files))
  {
    assert stores[index] in stores;
    var _ := stores[index].VerifyOrBootstrap(now);
  }

  /** One store writes. */
  method WriteTurn(files: CheckpointFiles, log: AuditLog, stores: seq<CheckpointStore>, index: nat, now: int)
    requires Together(files, log, stores) && index < |stores|
    modifies files, stores
    ensures Together(files, log, stores) && old(files.ids) <= files.ids
    ensures old(FileHolds(files, log.chain)) ==> FileHolds(files, log.chain)
    ensures old(NamesEvents(files, stores)) ==> NamesEvents(files, stores)
    ensures old(LockedOut(files)) ==> LockedOut(files)
    ensures files.reliable && LockedOut(files) ==> old(LockedOut(files))
  {
    assert stores[index] in stores;
    var _ := stores[index].Write(now);
  }

  method RecordEvents(files: CheckpointFiles, log: AuditLog, events: seq<Event>, commit: bool)
    requires log.Valid()
    modifies log
    ensures log.Valid()
    ensures old(FileHolds(files, log.chain)) ==> FileHolds(files, log.chain)
  {
    ghost var before := log.chain;
    var report := RunTransaction(log, events, commit);
    if files.body.Some? && files.body.value.Signed? {
      var document := files.body.value.document;
      if report == Committed {
        TransactionKeeps(log.platform, before, events, document.eventID, document.digest);
      }
    }
  }

  /** Retention as the application runs it: what the store trusts is preserved. */
  method ExpireFor(files: CheckpointFiles, log: AuditLog, store: CheckpointStore, cutoff: int, unsafe: set<nat>)
    returns (from: nat)
    requires log.Valid() && Follows(store, files)
    modifies log
    ensures log.Valid() && from == if store.trusted.Some? then store.trusted.value.eventID else 0
    ensures old(FileHolds(files, log.chain)) && from > 0 ==> FileHolds(files, log.chain)
  {
    from := if store.trusted.Some? then store.trusted.value.eventID else 0;
    ghost var before := log.chain;
    var _, outcomes := log.Cleanup(cutoff, from, unsafe);
    if files.body.Some? && files.body.value.Signed? {
      var document := files.body.value.document;
      SweepKeeps(log.platform, before, cutoff, from, outcomes, document.eventID, document.digest);
    }
  }
}
