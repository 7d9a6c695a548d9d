/** The crash-recoverable move of a tree between file systems.

    The tree type is abstract and `digestOf` is any function to non-empty digests.  Every effect
    on disk or in the database may crash the process before or after it took place, may be refused
    by the store without having happened, and may fail on disk, as far as `faults` allows; each
    postcondition therefore speaks about every durable state that an execution can leave behind. */
module CrossMove {

  import opened Wrappers

  /** A result that is lost when the process dies; `:-` passes the crash on. */
  datatype Outcome<+V> = Alive(value: V) | Crashed {
    predicate IsFailure() { Crashed? }
    function PropagateFailure<U>(): Outcome<U>
      requires Crashed?
    {
      Crashed
    }
    function Extract(): V
      requires Alive?
    {
      value
    }
  }

  datatype Place = Source | Temporary | Destination | Trash

  datatype Phase =
    | Scanning | Copying | ReadyToCommit | CleanupPending | TargetCommitted
    | SourceTrashed | Completed | RolledBack | Cancelled | Failed

  predicate Terminal(phase: Phase) {
    phase in {Completed, RolledBack, Cancelled, Failed}
  }

  /** The order in which durable phases may follow each other. */
  function Rank(phase: Phase): nat {
    match phase
    case Scanning => 0
    case Copying => 1
    case ReadyToCommit => 2
    case TargetCommitted => 3
    case SourceTrashed => 4
    case CleanupPending => 5
    case _ => 6
  }

  /** The operation record: its temporary and trash paths are named only from `Copying` on. */
  datatype Operation = Operation(phase: Phase, pathsNamed: bool, digest: string)

  /** The trash registration under this operation's ID: ours, or one with other path keys. */
  datatype TrashRow = OwnEntry | OtherEntry

  datatype World<T> = World(
    disk: map<Place, T>, row: Option<Operation>, trashRow: Option<TrashRow>, referenceMoves: nat)

  /** An effect on files. */
  datatype Effect = Look | Write | Move(from: Place, to: Place) | Delete(place: Place)

  /** An environment in which exactly these effects fail and the process dies after exactly these. */
  datatype Script = Script(fails: set<Effect>, diesAfter: set<Effect>)

  /** What may go wrong: crashes, refused store writes, failing file operations, and interrupts --
      cancellation, or a preflight check that refuses the move.  `past` says whether file operations of
      this process or of an earlier one may have failed.  A script fixes what goes wrong with files. */
  datatype Faults = Faults(
    crashes: bool, store: bool, files: bool, interrupts: bool, past: bool, script: Option<Script> := None)
  {
    /** Nothing goes wrong in this process. */
    predicate Quiet() {
      !crashes && !store && !files && !interrupts
    }
  }

  // ---------------------------------------------------------------- what every durable state satisfies

  ghost predicate Fresh<T>(start: World<T>) {
    start.row.None? && start.referenceMoves == 0 && Source in start.disk && Destination !in start.disk
  }

  /** The original tree is whole at its path, or moved whole into the operation's trash slot. */
  ghost predicate Intact<T>(start: World<T>, now: World<T>)
    requires Source in start.disk
  {
    if Source in now.disk then
      now.disk[Source] == start.disk[Source] &&
      (Trash in now.disk <==> Trash in start.disk) && (Trash in start.disk ==> now.disk[Trash] == start.disk[Trash])
    else
      Trash !in start.disk && Trash in now.disk && now.disk[Trash] == start.disk[Source]
  }

  ghost predicate Arrived<T>(digestOf: T -> string, start: World<T>, disk: map<Place, T>)
    requires Source in start.disk
  {
    Destination in disk && digestOf(disk[Destination]) == digestOf(start.disk[Source])
  }

  ghost predicate MovedCompletely<T>(digestOf: T -> string, start: World<T>, now: World<T>)
    requires Source in start.disk
  {
    Arrived(digestOf, start, now.disk) &&
    Source !in now.disk && Trash in now.disk && now.disk[Trash] == start.disk[Source] &&
    now.trashRow == Some(OwnEntry) && now.referenceMoves == 1
  }

  ghost predicate ReferencesUntouched<T>(start: World<T>, now: World<T>) {
    now.trashRow == start.trashRow && now.referenceMoves == 0
  }

  /** Holds in every durable state, whatever fails: the tree is never lost, and the durable
      phase tells the truth about the source, the digest and the references. */
  ghost predicate Safe<T>(digestOf: T -> string, start: World<T>, now: World<T>) {
    Fresh(start) && Intact(start, now) &&
    match now.row
    case None => now == start
    case Some(op) =>
      (if op.phase == Completed then MovedCompletely(digestOf, start, now) else ReferencesUntouched(start, now)) &&
      (op.phase in {Copying, ReadyToCommit, TargetCommitted, SourceTrashed} ==>
        op.pathsNamed && op.digest == digestOf(start.disk[Source])) &&
      (op.phase in {Scanning, Copying, ReadyToCommit, CleanupPending, RolledBack, Cancelled} ==> Source in now.disk) &&
      (op.phase == SourceTrashed ==> Source !in now.disk)
  }

  /** Holds in every durable state when no file operation ever failed. */
  ghost predicate Clean<T>(digestOf: T -> string, start: World<T>, now: World<T>) {
    Safe(digestOf, start, now) &&
    match now.row
    case None => true
    case Some(op) =>
      op.phase != CleanupPending &&
      (op.phase in {Scanning, Copying} ==> Destination !in now.disk) &&
      (op.phase == ReadyToCommit && Temporary in now.disk ==> Destination !in now.disk) &&
      (op.phase == TargetCommitted ==> Trash in start.disk || Arrived(digestOf, start, now.disk)) &&
      (op.phase == SourceTrashed ==> Arrived(digestOf, start, now.disk)) &&
      (op.phase in {Failed, RolledBack, Cancelled} ==> Source in now.disk)
  }

  ghost predicate Kept<T>(digestOf: T -> string, faults: Faults, start: World<T>, now: World<T>) {
    Safe(digestOf, start, now) && (!faults.past ==> Clean(digestOf, start, now))
  }

  // ---------------------------------------------------------------- recovery as a function

  predicate Verifies<T>(digestOf: T -> string, world: World<T>, place: Place, digest: string) {
    place in world.disk && (digest == "" || digestOf(world.disk[place]) == digest)
  }

  function Settle<T>(world: World<T>, op: Operation, phase: Phase): World<T> {
    world.(row := Some(op.(phase := phase)))
  }

  /** What one recovery without faults makes of a durable state. */
  function Recovered<T>(digestOf: T -> string, world: World<T>): World<T> {
    if world.row.None? || Terminal(world.row.value.phase) then world
    else
      var op := world.row.value;
      match op.phase
      case ReadyToCommit => RecoveredReady(digestOf, world, op)
      case TargetCommitted => RecoveredTarget(digestOf, world, op)
      case SourceTrashed => RecoveredTrashed(digestOf, world, op)
      case _ => Settle(if op.pathsNamed then world.(disk := world.disk - {Temporary}) else world, op, RolledBack)
  }

  function RecoveredReady<T>(digestOf: T -> string, world: World<T>, op: Operation): World<T> {
    if Temporary in world.disk then Settle(world.(disk := world.disk - {Temporary}), op, RolledBack)
    else if Destination !in world.disk then Settle(world, op, RolledBack)
    else if !Verifies(digestOf, world, Destination, op.digest) then Settle(world, op, Failed)
    else RecoveredTarget(digestOf, Settle(world, op, TargetCommitted), op)
  }

  function RecoveredTarget<T>(digestOf: T -> string, world: World<T>, op: Operation): World<T> {
    if Source in world.disk then
      if !Verifies(digestOf, world, Source, op.digest) then
        if Verifies(digestOf, world, Destination, op.digest)
        then Settle(world.(disk := world.disk - {Destination}), op, RolledBack)
        else Settle(world, op, Failed)
      else if Trash in world.disk then world
      else
        var disk := (world.disk - {Source})[Trash := world.disk[Source]];
        RecoveredTrashed(digestOf, Settle(world.(disk := disk), op, SourceTrashed), op)
    else if !op.pathsNamed || Trash !in world.disk then Settle(world, op, Failed)
    else RecoveredTrashed(digestOf, Settle(world, op, SourceTrashed), op)
  }

  function RecoveredTrashed<T>(digestOf: T -> string, world: World<T>, op: Operation): World<T> {
    if !Verifies(digestOf, world, Destination, op.digest) then Settle(world, op, Failed)
    else if !op.pathsNamed || !Verifies(digestOf, world, Trash, op.digest) then Settle(world, op, Failed)
    else if world.trashRow == Some(OtherEntry) then world
    else Settle(world, op, Completed).(trashRow := Some(OwnEntry), referenceMoves := world.referenceMoves + 1)
  }

  /** The operation ID is unused: no trash entry and no foreign registration carries it. */
  ghost predicate IdUnused<T>(start: World<T>) {
    Trash !in start.disk && start.trashRow != Some(OtherEntry)
  }

  /** Recovery takes the destination for committed. */
  ghost predicate GoesOn<T>(digestOf: T -> string, start: World<T>, now: World<T>)
    requires Source in start.disk && now.row.Some?
  {
    || now.row.value.phase in {TargetCommitted, SourceTrashed}
    || (now.row.value.phase == ReadyToCommit && Temporary !in now.disk && Arrived(digestOf, start, now.disk))
  }

  /** Recovery would have to move the source into an occupied trash slot, or to register it under an ID
      that another entry has. */
  ghost predicate Hindered<T>(digestOf: T -> string, start: World<T>, now: World<T>)
    requires Source in start.disk && now.row.Some?
  {
    GoesOn(digestOf, start, now) &&
    ((Source in now.disk && Trash in now.disk) ||
     (Arrived(digestOf, start, now.disk) && now.trashRow == Some(OtherEntry)))
  }

  /** From every durable state, one recovery without faults reaches a terminal phase unless it is
      hindered, and another recovery then changes nothing. */
  lemma RecoveryTerminates<T>(digestOf: T -> string, start: World<T>, now: World<T>)
    requires Safe(digestOf, start, now) && now.row.Some? && digestOf(start.disk[Source]) != ""
    ensures var after := Recovered(digestOf, now);
            && after.row.Some? && Safe(digestOf, start, after)
            && (Terminal(after.row.value.phase) <==> !Hindered(digestOf, start, now))
            && Rank(now.row.value.phase) <= Rank(after.row.value.phase)
            && Recovered(digestOf, after) == after
  {
    var op := now.row.value;
    if op.phase == TargetCommitted {
      TargetEnds(digestOf, start, now);
    } else if op.phase == ReadyToCommit && GoesOn(digestOf, start, now) {
      TargetEnds(digestOf, start, Settle(now, op, TargetCommitted));
    } else if op.phase == SourceTrashed {
      TrashedEnds(digestOf, start, now);
    }
  }

  lemma TargetEnds<T>(digestOf: T -> string, start: World<T>, now: World<T>)
    requires Safe(digestOf, start, now) && now.row.Some? && now.row.value.phase == TargetCommitted
    requires digestOf(start.disk[Source]) != ""
    ensures var after := RecoveredTarget(digestOf, now, now.row.value);
            && after.row.Some? && Safe(digestOf, start, after)
            && (Terminal(after.row.value.phase) <==> !Hindered(digestOf, start, now))
            && Rank(TargetCommitted) <= Rank(after.row.value.phase)
            && Recovered(digestOf, after) == after
  {
    var op := now.row.value;
    if Source !in now.disk {
      TrashedEnds(digestOf, start, Settle(now, op, SourceTrashed));
    } else if Trash !in now.disk {
      var disk := (now.disk - {Source})[Trash := now.disk[Source]];
      TrashedEnds(digestOf, start, Settle(now.(disk := disk), op, SourceTrashed));
    }
  }

  lemma TrashedEnds<T>(digestOf: T -> string, start: World<T>, now: World<T>)
    requires Safe(digestOf, start, now) && now.row.Some? && now.row.value.phase == SourceTrashed
    requires digestOf(start.disk[Source]) != ""
    ensures var after := RecoveredTrashed(digestOf, now, now.row.value);
            && after.row.Some? && Safe(digestOf, start, after)
            && (Terminal(after.row.value.phase) <==> !Hindered(digestOf, start, now))
            && Rank(SourceTrashed) <= Rank(after.row.value.phase)
            && Recovered(digestOf, after) == after
  {
  }

  /** The states from which recovery takes the source away although the destination is damaged:
      the target is recorded as committed and does not verify. */
  ghost predicate Strands<T>(digestOf: T -> string, start: World<T>, now: World<T>)
    requires Source in start.disk && now.row.Some?
  {
    now.row.value.phase in {TargetCommitted, SourceTrashed} && !Arrived(digestOf, start, now.disk)
  }

  /** What a recovery without faults makes of a pending move, in terms of what can be seen before it:
      it stays pending exactly when it is hindered, and otherwise completes the move exactly when the
      destination was committed and still verifies. */
  lemma RecoveryDecides<T>(digestOf: T -> string, start: World<T>, now: World<T>)
    requires Safe(digestOf, start, now) && now.row.Some? && !Terminal(now.row.value.phase)
    requires digestOf(start.disk[Source]) != ""
    ensures var after := Recovered(digestOf, now);
            var hindered := Hindered(digestOf, start, now);
            && (after.row.value.phase == Completed <==>
                  GoesOn(digestOf, start, now) && Arrived(digestOf, start, now.disk) && !hindered)
            && (after.row.value.phase == Failed && Source !in after.disk <==>
                  Strands(digestOf, start, now) && !hindered)
  {
    RecoveryTerminates(digestOf, start, now);
  }

  /** What a failed trash step leaves behind when the process dies once the destination is removed again. */
  function Stranded<T>(digestOf: T -> string, start: World<T>): World<T>
    requires Source in start.disk
  {
    start.(row := Some(Operation(TargetCommitted, true, digestOf(start.disk[Source]))))
  }

  /** The promise "completed, or the source is still at its path" fails when file operations fail:
      recovery from there moves the only copy to the trash and ends `Failed`. */
  lemma FailedTrashStepStrandsSource<T>(digestOf: T -> string, start: World<T>)
    requires Fresh(start) && Trash !in start.disk && digestOf(start.disk[Source]) != ""
    ensures var crashed := Stranded(digestOf, start);
            var disk := (start.disk - {Source})[Trash := start.disk[Source]];
            && Safe(digestOf, start, crashed) && !Clean(digestOf, start, crashed)
            && Recovered(digestOf, crashed) == Settle(crashed.(disk := disk), crashed.row.value, Failed)
  {
  }

  // ---------------------------------------------------------------- the engine

  ghost predicate SameExcept<T>(place: Place, before: map<Place, T>, after: map<Place, T>) {
    forall other | other != place ::
      (other in after <==> other in before) && (other in before ==> after[other] == before[other])
  }

  ghost predicate Ascending(trail: seq<Phase>) {
    forall i, j | 0 <= i <= j < |trail| :: Rank(trail[i]) <= Rank(trail[j])
  }

  /** The durable phases so far, of which the row has the last one. */
  ghost predicate Follows(row: Option<Operation>, trail: seq<Phase>) {
    Ascending(trail) && if row.None? then trail == [] else trail != [] && trail[|trail| - 1] == row.value.phase
  }

  class MoveEngine<T(0,!new)> {
    const digestOf: T -> string
    const faults: Faults
    var disk: map<Place, T>
    var row: Option<Operation>
    var trashRow: Option<TrashRow>
    var referenceMoves: nat
    ghost var trail: seq<Phase>  // every phase that was ever durable, in order

    constructor (digestOf: T -> string, faults: Faults, world: World<T>)
      requires (forall tree :: digestOf(tree) != "") && world.row.None?
      ensures this.digestOf == digestOf && this.faults == faults.(past := faults.files)
      ensures Now() == world && Valid()
    {
      this.digestOf, this.faults := digestOf, faults.(past := faults.files);
      disk, row, trashRow, referenceMoves := world.disk, world.row, world.trashRow, world.referenceMoves;
      trail := [];
    }

    /** A process that starts over what is durable, with its own faults; `past` tells of earlier ones. */
    constructor Resumed(digestOf: T -> string, faults: Faults, world: World<T>, ghost trail: seq<Phase>)
      requires (forall tree :: digestOf(tree) != "") && Follows(world.row, trail)
      ensures this.digestOf == digestOf && this.faults == faults.(past := faults.files || faults.past)
      ensures Now() == world && this.trail == trail && Valid()
    {
      this.digestOf, this.faults := digestOf, faults.(past := faults.files || faults.past);
      disk, row, trashRow, referenceMoves := world.disk, world.row, world.trashRow, world.referenceMoves;
      this.trail := trail;
    }

    function Now(): World<T>
      reads this
    {
      World(disk, row, trashRow, referenceMoves)
    }

    ghost predicate Valid()
      reads this
    {
      (forall tree :: digestOf(tree) != "") && (faults.files ==> faults.past) && Follows(row, trail)
    }

    /** Nothing fails -- the move may still be refused, or cancelled by a request in the store -- and the
        operation ID is unused. */
    ghost predicate Steady(start: World<T>) {
      !faults.crashes && !faults.store && !faults.past && IdUnused(start)
    }

    /** The move completed, or it ended early and the disk is as it was. */
    ghost predicate Ended(start: World<T>)
      reads this
    {
      row.Some? &&
      (row.value.phase == Completed ||
       (faults.interrupts && row.value.phase in {Cancelled, Failed} && disk == start.disk))
    }

    // -------------------------------------------------------------- single effects

    // What the environment does to the next effect.

    method Crashes(after: Option<Effect> := None) returns (now: bool)
      ensures now ==> faults.crashes
      ensures faults.script.Some? ==>
                (now <==> faults.crashes && after.Some? && after.value in faults.script.value.diesAfter)
    {
      now := *;
      if faults.script.Some? { now := after.Some? && after.value in faults.script.value.diesAfter; }
      now := now && faults.crashes;
    }

    method StoreFails() returns (now: bool)
      ensures now ==> faults.store && faults.script.None?
    {
      now := *;
      now := now && faults.store && faults.script.None?;
    }

    method FileFails(effect: Effect) returns (now: bool)
      ensures now ==> faults.files
      ensures faults.script.Some? ==> (now <==> faults.files && effect in faults.script.value.fails)
    {
      now := *;
      if faults.script.Some? { now := effect in faults.script.value.fails; }
      now := now && faults.files;
    }

    method Interrupted() returns (now: bool)
      ensures now ==> faults.interrupts && faults.script.None?
    {
      now := *;
      now := now && faults.interrupts && faults.script.None?;
    }

    /** Everything works, but the source cannot be moved to the trash, and the process dies once the
        destination is removed again. */
    ghost predicate Stranding() {
      && faults.crashes && faults.files
      && faults.script == Some(Script({Move(Source, Trash)}, {Delete(Destination)}))
    }

    /** `removeMovePath`: not atomic on a directory, so a failure or a crash can leave any part behind. */
    method Remove(place: Place) returns (removed: Outcome<bool>)
      modifies this`disk
      ensures SameExcept(place, old(disk), disk)
      ensures place in disk ==> place in old(disk)
      ensures removed == Alive(true) ==> disk == old(disk) - {place}
      ensures removed == Alive(false) ==> faults.files
      ensures removed.Crashed? ==> faults.crashes
      ensures Stranding() && (place == Destination ==> place in old(disk)) ==>
                disk == old(disk) - {place} && removed == if place == Destination then Crashed else Alive(true)
    {
      var crash := Crashes();
      var failed := FileFails(Delete(place));
      if crash { return Crashed; }
      if failed { return Alive(false); }
      if place !in disk { return Alive(true); }
      crash := Crashes();
      failed := FileFails(Delete(place));
      if crash || failed {
        var remains: T := *;
        disk := disk[place := remains];
        return if crash then Crashed else Alive(false);
      }
      disk := disk - {place};
      crash := Crashes(Some(Delete(place)));
      return if crash then Crashed else Alive(true);
    }

    /** An atomic rename onto a free place of the same file system. */
    method Rename(from: Place, to: Place) returns (renamed: Outcome<bool>)
      requires from != to
      modifies this`disk
      ensures disk == old(disk) ||
              (from in old(disk) && to !in old(disk) && disk == (old(disk) - {from})[to := old(disk)[from]])
      ensures renamed == Alive(true) ==> disk != old(disk)
      ensures renamed == Alive(false) ==> disk == old(disk) && (faults.files || from !in disk || to in disk)
      ensures renamed.Crashed? ==> faults.crashes
      ensures Stranding() ==>
                renamed == Alive(from in old(disk) && to !in old(disk) && (from != Source || to != Trash))
    {
      var crash := Crashes();
      var failed := FileFails(Move(from, to));
      if crash { return Crashed; }
      if failed || from !in disk || to in disk { return Alive(false); }
      disk := (disk - {from})[to := disk[from]];
      crash := Crashes(Some(Move(from, to)));
      return if crash then Crashed else Alive(true);
    }

    /** `digestTree`: None when the place is missing, cannot be read, or the walk was cancelled. */
    method DigestTree(place: Place) returns (digest: Option<string>)
      ensures digest.Some? ==> place in disk && digest.value == digestOf(disk[place])
      ensures place in disk && (!faults.files || Stranding()) ==> digest.Some?
    {
      var failed := FileFails(Look);
      if failed || place !in disk { return None; }
      return Some(digestOf(disk[place]));
    }

    /** `verifyTreeDigest`. */
    method Verify(place: Place, digest: string) returns (matches: bool)
      ensures matches ==> digest == "" || (place in disk && digestOf(disk[place]) == digest)
      ensures place in disk && (!faults.files || Stranding()) ==>
                (matches <==> Verifies(digestOf, Now(), place, digest))
      ensures place !in disk && digest != "" ==> !matches
    {
      if digest == "" { return true; }
      var actual := DigestTree(place);
      return actual == Some(digest);
    }

    method Create(op: Operation) returns (created: Outcome<bool>)
      requires Valid()
      modifies this`row, this`trail
      ensures Valid()
      ensures row == old(row) || (old(row).None? && row == Some(op))
      ensures created == Alive(true) ==> old(row).None? && row == Some(op)
      ensures created == Alive(false) ==> row == old(row) && (faults.store || row.Some?)
      ensures created.Crashed? ==> faults.crashes
      ensures row == old(row) ==> trail == old(trail)
      ensures Stranding() ==> created == Alive(old(row).None?)
    {
      var crash := Crashes();
      var failed := StoreFails();
      if crash { return Crashed; }
      if failed || row.Some? { return Alive(false); }
      row, trail := Some(op), [op.phase];
      crash := Crashes();
      return if crash then Crashed else Alive(true);
    }

    /** `Update`: reports a failure only when nothing was written. */
    method Update(op: Operation) returns (updated: Outcome<bool>)
      requires Valid() && row.Some? && Rank(row.value.phase) <= Rank(op.phase)
      modifies this`row, this`trail
      ensures Valid() && (row == old(row) || row == Some(op))
      ensures updated == Alive(true) ==> row == Some(op)
      ensures updated == Alive(false) ==> row == old(row) && faults.store
      ensures updated.Crashed? ==> faults.crashes
      ensures old(trail) <= trail
      ensures Stranding() ==> updated == Alive(true)
    {
      var crash := Crashes();
      var failed := StoreFails();
      if crash { return Crashed; }
      if failed { return Alive(false); }
      row, trail := Some(op), trail + [op.phase];
      crash := Crashes();
      return if crash then Crashed else Alive(true);
    }

    /** `Commit`: trash registration, reference update and phase in one transaction. */
    method Commit(op: Operation) returns (committed: Outcome<bool>)
      requires Valid() && row.Some? && Rank(row.value.phase) <= Rank(Completed)
      modifies this`row, this`trashRow, this`referenceMoves, this`trail
      ensures Valid()
      ensures Now() == old(Now()) ||
              (Trash in disk && old(trashRow) != Some(OtherEntry) &&
               Now() == old(Now()).(row := Some(op.(phase := Completed)), trashRow := Some(OwnEntry),
                                    referenceMoves := old(referenceMoves) + 1))
      ensures committed == Alive(true) ==>
                row == Some(op.(phase := Completed)) && referenceMoves == old(referenceMoves) + 1
      ensures committed == Alive(false) ==>
                Now() == old(Now()) && (faults.store || faults.files || Trash !in disk || trashRow == Some(OtherEntry))
      ensures committed.Crashed? ==> faults.crashes
      ensures old(trail) <= trail
    {
      var crash := Crashes();
      var failed := StoreFails();
      var unread := FileFails(Look);
      if crash { return Crashed; }
      if failed || unread || Trash !in disk || trashRow == Some(OtherEntry) { return Alive(false); }
      row, trail := Some(op.(phase := Completed)), trail + [Completed];
      trashRow, referenceMoves := Some(OwnEntry), referenceMoves + 1;
      crash := Crashes();
      return if crash then Crashed else Alive(true);
    }

    // -------------------------------------------------------------- ending an operation early

    /** Records how an operation ended whose source is still in place. */
    method End(ghost start: World<T>, op: Operation) returns (done: Outcome<()>)
      requires Valid() && Kept(digestOf, faults, start, Now()) && Source in disk
      requires row.Some? && Rank(row.value.phase) <= Rank(op.phase)
      requires op.phase in {Cancelled, Failed, RolledBack} || (op.phase == CleanupPending && faults.files)
      modifies this`row, this`trail
      ensures Valid() && Kept(digestOf, faults, start, Now()) && old(trail) <= trail
      ensures done.Alive? && !faults.store ==> row == Some(op)
      ensures done.Crashed? ==> faults.crashes
    {
      var _ :- Update(op);
      return Alive(());
    }

    /** `fail`: clean up the temporary copy, then record why the move ended. */
    method Fail(ghost start: World<T>, op: Operation, cancelled: bool) returns (done: Outcome<()>)
      requires Valid() && Kept(digestOf, faults, start, Now()) && Source in disk
      requires row.Some? && Rank(row.value.phase) <= Rank(TargetCommitted)
      modifies this
      ensures Valid() && Kept(digestOf, faults, start, Now()) && old(trail) <= trail
      ensures SameExcept(Temporary, old(disk), disk)
      ensures done.Alive? && !faults.store ==>
                var ended := if cancelled then Cancelled else Failed;
                || (row == Some(op.(phase := ended)) &&
                    disk == if op.pathsNamed then old(disk) - {Temporary} else old(disk))
                || (faults.files && row == Some(op.(phase := CleanupPending)))
      ensures done.Crashed? ==> faults.crashes
    {
      if op.pathsNamed {
        var removed :- Remove(Temporary);
        if !removed {
          done := End(start, op.(phase := CleanupPending));
          return;
        }
      }
      done := End(start, op.(phase := if cancelled then Cancelled else Failed));
    }

    /** `fail` before the destination was touched: without a fault the disk is as it was. */
    method Abandon(ghost start: World<T>, op: Operation, cancelled: bool) returns (done: Outcome<()>)
      requires Valid() && Kept(digestOf, faults, start, Now()) && Source in disk
      requires row.Some? && Rank(row.value.phase) <= Rank(ReadyToCommit)
      modifies this
      ensures Valid() && Kept(digestOf, faults, start, Now()) && old(trail) <= trail
      ensures Steady(start) && faults.interrupts && Unspoiled(start, op, old(disk)) ==> Ended(start)
    {
      done := Fail(start, op, cancelled);
    }

    /** Nothing but the temporary copy of the operation is on disk besides what was there. */
    ghost predicate Unspoiled(start: World<T>, op: Operation, now: map<Place, T>) {
      if op.pathsNamed then SameExcept(Temporary, start.disk, now) && Temporary !in start.disk else now == start.disk
    }

    /** `rollbackCommittedTarget`: take the destination back only while it still verifies. */
    method RollbackCommittedTarget(ghost start: World<T>, op: Operation) returns (phase: Outcome<Phase>)
      requires Valid() && Kept(digestOf, faults, start, Now()) && Source in disk && faults.files
      requires row.Some? && row.value.phase == TargetCommitted
      modifies this
      ensures Valid() && Kept(digestOf, faults, start, Now()) && old(trail) <= trail
      ensures SameExcept(Destination, old(disk), disk)
      ensures phase.Alive? ==>
                phase.value in {RolledBack, Failed} && (row == Some(op.(phase := phase.value)) || faults.store)
      ensures phase == Alive(RolledBack) ==> Verifies(digestOf, old(Now()), Destination, op.digest) || op.digest == ""
      ensures phase == Alive(RolledBack) ==> disk == old(disk) - {Destination}
    {
      var matches := Verify(Destination, op.digest);
      if !matches {
        var _ :- End(start, op.(phase := Failed));
        return Alive(Failed);
      }
      var removed :- Remove(Destination);
      if !removed {
        var _ :- End(start, op.(phase := Failed));
        return Alive(Failed);
      }
      var _ :- End(start, op.(phase := RolledBack));
      return Alive(RolledBack);
    }

    // -------------------------------------------------------------- execution

    /** `copy`: each manifest entry is written below the temporary path and progress is persisted;
        success means that the copied tree has the preflight digest. */
    method Copy(ghost start: World<T>, op: Operation, manifestEntries: nat) returns (copied: Outcome<bool>)
      requires Valid() && Kept(digestOf, faults, start, Now())
      requires row == Some(op) && op.phase == Copying && op.digest != ""
      modifies this
      ensures Valid() && Kept(digestOf, faults, start, Now()) && old(trail) <= trail && Source in disk
      ensures copied.Alive? ==> row == Some(op) && SameExcept(Temporary, old(disk), disk)
      ensures copied == Alive(true) ==> Temporary in disk && digestOf(disk[Temporary]) == op.digest
      ensures copied == Alive(false) ==> faults.interrupts || faults.store || faults.files
      ensures copied.Crashed? ==> faults.crashes
      ensures Stranding() ==> copied == Alive(true)
    {
      var written :- CopyEntries(start, op, manifestEntries);
      if !written { return Alive(false); }
      var finished: T := *;
      var spoiled := FileFails(Write);
      if !faults.files || (faults.script.Some? && !spoiled) {
        finished := disk[Source];  // every entry and its metadata was written
      }
      disk := disk[Temporary := finished];
      var cancelled := Interrupted();
      if cancelled { return Alive(false); }
      var verified := DigestTree(Temporary);
      return Alive(verified == Some(op.digest));
    }

    method CopyEntries(ghost start: World<T>, op: Operation, manifestEntries: nat) returns (written: Outcome<bool>)
      requires Valid() && Kept(digestOf, faults, start, Now())
      requires row == Some(op) && op.phase == Copying && op.digest != ""
      modifies this
      ensures Valid() && Kept(digestOf, faults, start, Now()) && old(trail) <= trail && Source in disk
      ensures written.Alive? ==> row == Some(op) && SameExcept(Temporary, old(disk), disk)
      ensures written == Alive(false) ==> faults.interrupts || faults.store || faults.files
      ensures written.Crashed? ==> faults.crashes
      ensures Stranding() ==> written == Alive(true)
    {
      var entry := 0;
      while entry < manifestEntries
        invariant Valid() && Kept(digestOf, faults, start, Now()) && old(trail) <= trail
        invariant row == Some(op) && SameExcept(Temporary, old(disk), disk)
      {
        var cancelled := Interrupted();
        var crash := Crashes();
        var failed := FileFails(Write);
        if cancelled || failed { return Alive(false); }
        var partialCopy: T := *;
        disk := disk[Temporary := partialCopy];
        if crash { return Crashed; }
        var updated :- Update(op);
        if !updated { return Alive(false); }
        entry := entry + 1;
      }
      return Alive(true);
    }

    /** `execute`. */
    method Execute(ghost start: World<T>, manifestEntries: nat) returns (done: Outcome<()>)
      requires Valid() && start == Now() && row.None? && referenceMoves == 0
      modifies this
      ensures Valid() && (Fresh(start) ==> Kept(digestOf, faults, start, Now()))
      ensures !Fresh(start) ==> Now() == start
      ensures faults.Quiet() && Steady(start) && Fresh(start) && Temporary !in start.disk ==>
                row.Some? && row.value.phase == Completed
      ensures Steady(start) && Fresh(start) && Temporary !in start.disk ==> Ended(start) || Now() == start
      ensures Stranding() && Fresh(start) && Temporary !in start.disk ==> Now() == Stranded(digestOf, start)
    {
      var rejected := Interrupted();
      if Source !in disk || Destination in disk || rejected { return Alive(()); }
      var op := Operation(Scanning, false, "");
      var created :- Create(op);
      if !created { return Alive(()); }
      done := ScanAndCopy(start, op, manifestEntries);
    }

    /** Scan, name the temporary and trash paths, copy and commit; the temporary copy is removed on
        every return after it was named and found free. */
    method ScanAndCopy(ghost start: World<T>, op0: Operation, manifestEntries: nat) returns (done: Outcome<()>)
      requires Valid() && Kept(digestOf, faults, start, Now())
      requires row == Some(op0) && op0 == Operation(Scanning, false, "") && Destination !in disk
      modifies this
      ensures Valid() && Kept(digestOf, faults, start, Now()) && old(trail) <= trail
      ensures Steady(start) && old(disk) == start.disk && Temporary !in start.disk ==> Ended(start)
      ensures Stranding() && old(disk) == start.disk && Temporary !in start.disk ==>
                done.Crashed? && Now() == Stranded(digestOf, start)
    {
      var op := op0;
      var digest := DigestTree(Source);
      var cancelled := Interrupted();
      var refused := Interrupted();
      if digest.None? || cancelled || refused {
        done := Abandon(start, op, cancelled);
        return;
      }
      op := Operation(Copying, true, digest.value);
      var updated :- Update(op);
      if !updated { return Alive(()); }
      var unread := FileFails(Look);
      if Temporary in disk || unread {
        done := Abandon(start, op, false);
        return;
      }
      done := CopyAndCommit(start, op, manifestEntries);
      if done.Alive? { done := RemoveTemporary(start); }
    }

    /** The deferred clean-up at the end of every execution. */
    method RemoveTemporary(ghost start: World<T>) returns (done: Outcome<()>)
      requires Valid() && Kept(digestOf, faults, start, Now())
      requires row.Some? && Source in start.disk
      modifies this`disk
      ensures Valid() && Kept(digestOf, faults, start, Now())
      ensures SameExcept(Temporary, old(disk), disk)
      ensures done.Alive? && !faults.files ==> disk == old(disk) - {Temporary}
      ensures done.Crashed? ==> faults.crashes
    {
      var _ :- Remove(Temporary);
      return Alive(());
    }

    method CopyAndCommit(ghost start: World<T>, op0: Operation, manifestEntries: nat) returns (done: Outcome<()>)
      requires Valid() && Kept(digestOf, faults, start, Now())
      requires row == Some(op0) && op0.phase == Copying && Destination !in disk
      modifies this
      ensures Valid() && Kept(digestOf, faults, start, Now()) && old(trail) <= trail
      ensures Steady(start) && old(disk) == start.disk && Temporary !in start.disk ==> Ended(start)
      ensures Stranding() && old(disk) == start.disk && Temporary !in start.disk ==>
                done.Crashed? && Now() == Stranded(digestOf, start)
    {
      var op := op0;
      var copied :- Copy(start, op, manifestEntries);
      var cancelled := Interrupted();
      if !copied {
        done := Abandon(start, op, cancelled);
        return;
      }
      done := ConfirmAndCommit(start, op);
    }

    method ConfirmAndCommit(ghost start: World<T>, op0: Operation) returns (done: Outcome<()>)
      requires Valid() && Kept(digestOf, faults, start, Now())
      requires row == Some(op0) && op0.phase == Copying
      requires Destination !in disk && Temporary in disk && digestOf(disk[Temporary]) == op0.digest
      modifies this
      ensures Valid() && Kept(digestOf, faults, start, Now()) && old(trail) <= trail
      ensures Steady(start) && SameExcept(Temporary, start.disk, old(disk)) && Temporary !in start.disk ==> Ended(start)
      ensures Stranding() && SameExcept(Temporary, start.disk, old(disk)) && Temporary !in start.disk ==>
                done.Crashed? && Now() == Stranded(digestOf, start)
    {
      var op := op0;
      var matches := Verify(Source, op.digest);
      if !matches {
        done := Abandon(start, op, false);
        return;
      }
      op := op.(phase := ReadyToCommit);
      var updated :- Update(op);
      if !updated { return Alive(()); }
      var stopped := Interrupted();
      var unread := FileFails(Look);
      if stopped || unread || Destination in disk {
        done := Abandon(start, op, stopped);
        return;
      }
      done := CommitTarget(start, op);
    }

    /** The four effects that make the move visible, in the only order that is safe. */
    method CommitTarget(ghost start: World<T>, op: Operation) returns (done: Outcome<()>)
      requires Valid() && Kept(digestOf, faults, start, Now())
      requires row == Some(op) && op.phase == ReadyToCommit
      requires Destination !in disk && Temporary in disk && digestOf(disk[Temporary]) == op.digest
      modifies this
      ensures Valid() && Kept(digestOf, faults, start, Now()) && old(trail) <= trail
      ensures Steady(start) ==> row.Some? && row.value.phase == Completed
      ensures Stranding() && SameExcept(Temporary, start.disk, old(disk)) && Temporary !in start.disk ==>
                done.Crashed? && Now() == Stranded(digestOf, start)
    {
      var renamed :- Rename(Temporary, Destination);
      if !renamed {
        done := Fail(start, op, false);
        return;
      }
      done := RecordTarget(start, op.(phase := TargetCommitted));
    }

    method RecordTarget(ghost start: World<T>, op: Operation) returns (done: Outcome<()>)
      requires Valid() && Kept(digestOf, faults, start, Now())
      requires row == Some(op.(phase := ReadyToCommit)) && op.phase == TargetCommitted
      requires Arrived(digestOf, start, disk)
      modifies this
      ensures Valid() && Kept(digestOf, faults, start, Now()) && old(trail) <= trail
      ensures Steady(start) ==> row.Some? && row.value.phase == Completed
      ensures Stranding() && SameExcept(Destination, start.disk, old(disk)) ==>
                done.Crashed? && Now() == Stranded(digestOf, start)
    {
      var updated :- Update(op);
      if !updated {
        var _ :- Remove(Destination);
        return Alive(());
      }
      done := TrashSource(start, op);
    }

    method TrashSource(ghost start: World<T>, op0: Operation) returns (done: Outcome<()>)
      requires Valid() && Kept(digestOf, faults, start, Now())
      requires row == Some(op0) && op0.phase == TargetCommitted
      requires Source in disk && Arrived(digestOf, start, disk)
      modifies this
      ensures Valid() && Kept(digestOf, faults, start, Now()) && old(trail) <= trail
      ensures Steady(start) ==> row.Some? && row.value.phase == Completed
      ensures Stranding() && SameExcept(Destination, start.disk, old(disk)) ==>
                done.Crashed? && Now() == Stranded(digestOf, start)
    {
      var op := op0;
      var matches := Verify(Source, op.digest);
      if !matches {
        var phase :- RollbackCommittedTarget(start, op);
        return Alive(());
      }
      var trashed :- Rename(Source, Trash);
      if !trashed {
        var _ :- Remove(Destination);
        done := Fail(start, op, false);
        return;
      }
      done := CommitReferences(start, op.(phase := SourceTrashed));
    }

    method CommitReferences(ghost start: World<T>, op: Operation) returns (done: Outcome<()>)
      requires Valid() && Kept(digestOf, faults, start, Now())
      requires row.Some? && row.value.phase == TargetCommitted && op == row.value.(phase := SourceTrashed)
      requires Source !in disk && Arrived(digestOf, start, disk)
      modifies this
      ensures Valid() && Kept(digestOf, faults, start, Now()) && old(trail) <= trail
      ensures Steady(start) ==> row.Some? && row.value.phase == Completed
    {
      var updated :- Update(op);
      if !updated {
        var _ :- Update(op);
        return Alive(());
      }
      var committed :- Commit(op);
      if !committed {
        var _ :- Update(op);
      }
      return Alive(());
    }

    // -------------------------------------------------------------- recovery

    /** `recoverOne`. */
    method RecoverOne(ghost start: World<T>) returns (done: Outcome<()>)
      requires Valid() && Kept(digestOf, faults, start, Now())
      modifies this
      ensures Valid() && Kept(digestOf, faults, start, Now()) && old(trail) <= trail
      ensures faults.Quiet() ==> Now() == Recovered(digestOf, old(Now()))
    {
      if row.None? || Terminal(row.value.phase) { return Alive(()); }
      var op := row.value;
      if op.phase in {Scanning, Copying, CleanupPending} {
        if op.pathsNamed {
          var removed :- Remove(Temporary);
          if !removed { return Alive(()); }
        }
        var _ :- Update(op.(phase := RolledBack));
        return Alive(());
      }
      if op.phase == ReadyToCommit {
        done := RecoverReady(start, op);
      } else if op.phase == TargetCommitted {
        done := RecoverTarget(start, op);
      } else {
        done := RecoverTrashed(start, op);
      }
    }

    method RecoverReady(ghost start: World<T>, op: Operation) returns (done: Outcome<()>)
      requires Valid() && Kept(digestOf, faults, start, Now()) && row == Some(op) && op.phase == ReadyToCommit
      modifies this
      ensures Valid() && Kept(digestOf, faults, start, Now()) && old(trail) <= trail
      ensures faults.Quiet() ==> Now() == RecoveredReady(digestOf, old(Now()), op)
    {
      var unread := FileFails(Look);
      if Temporary in disk && !unread {
        var removed :- Remove(Temporary);
        if !removed { return Alive(()); }
        var _ :- Update(op.(phase := RolledBack));
        return Alive(());
      }
      done := RecoverRenamed(start, op);
    }

    method RecoverRenamed(ghost start: World<T>, op: Operation) returns (done: Outcome<()>)
      requires Valid() && Kept(digestOf, faults, start, Now()) && row == Some(op) && op.phase == ReadyToCommit
      requires faults.Quiet() ==> Temporary !in disk
      modifies this
      ensures Valid() && Kept(digestOf, faults, start, Now()) && old(trail) <= trail
      ensures faults.Quiet() ==> Now() == RecoveredReady(digestOf, old(Now()), op)
    {
      var unread := FileFails(Look);
      if Destination !in disk || unread {
        var _ :- Update(op.(phase := RolledBack));
        return Alive(());
      }
      var matches := Verify(Destination, op.digest);
      if !matches {
        var _ :- Update(op.(phase := Failed));
        return Alive(());
      }
      var updated :- Update(op.(phase := TargetCommitted));
      if !updated { return Alive(()); }
      done := RecoverTarget(start, op.(phase := TargetCommitted));
    }

    method RecoverTarget(ghost start: World<T>, op0: Operation) returns (done: Outcome<()>)
      requires Valid() && Kept(digestOf, faults, start, Now()) && row == Some(op0) && op0.phase == TargetCommitted
      modifies this
      ensures Valid() && Kept(digestOf, faults, start, Now()) && old(trail) <= trail
      ensures faults.Quiet() ==> Now() == RecoveredTarget(digestOf, old(Now()), op0)
    {
      var op := op0;
      var unread := FileFails(Look);
      if unread { return Alive(()); }
      if Source in disk {
        var matches := Verify(Source, op.digest);
        if !matches {
          var _ :- RollbackCommittedTarget(start, op);
          return Alive(());
        }
        var trashed :- Rename(Source, Trash);
        if !trashed { return Alive(()); }
      } else {
        unread := FileFails(Look);
        if !op.pathsNamed || Trash !in disk || unread {
          var _ :- Update(op.(phase := Failed));
          return Alive(());
        }
      }
      done := RecordTrashed(start, op);
    }

    /** The end of the case `TargetCommitted`: the source is in the trash, now or already before. */
    method RecordTrashed(ghost start: World<T>, op0: Operation) returns (done: Outcome<()>)
      requires Valid() && Kept(digestOf, faults, start, Now()) && row == Some(op0) && op0.phase == TargetCommitted
      requires Source !in disk
      modifies this
      ensures Valid() && Kept(digestOf, faults, start, Now()) && old(trail) <= trail
      ensures faults.Quiet() ==>
                Now() == RecoveredTrashed(digestOf, Settle(old(Now()), op0, SourceTrashed), op0)
    {
      var op := op0.(phase := SourceTrashed);
      var updated :- Update(op);
      if !updated { return Alive(()); }
      done := RecoverTrashed(start, op);
    }

    method RecoverTrashed(ghost start: World<T>, op: Operation) returns (done: Outcome<()>)
      requires Valid() && Kept(digestOf, faults, start, Now()) && row == Some(op) && op.phase == SourceTrashed
      modifies this
      ensures Valid() && Kept(digestOf, faults, start, Now()) && old(trail) <= trail
      ensures faults.Quiet() ==> Now() == RecoveredTrashed(digestOf, old(Now()), op)
    {
      var matches := Verify(Destination, op.digest);
      if !matches {
        var _ :- Update(op.(phase := Failed));
        return Alive(());
      }
      var unread := FileFails(Look);
      if !op.pathsNamed || Trash !in disk || unread {
        var _ :- Update(op.(phase := Failed));
        return Alive(());
      }
      matches := Verify(Trash, op.digest);
      if !matches {
        var _ :- Update(op.(phase := Failed));
        return Alive(());
      }
      var _ :- Commit(op);
      return Alive(());
    }
  }

  // ---------------------------------------------------------------- whole runs

  /** How a move may end: completed everywhere, or not at all with the source at its path. */
  ghost predicate AllOrNothing<T>(digestOf: T -> string, start: World<T>, now: World<T>)
    requires Source in start.disk && now.row.Some?
  {
    if now.row.value.phase == Completed then MovedCompletely(digestOf, start, now)
    else ReferencesUntouched(start, now) && Source in now.disk && now.disk[Source] == start.disk[Source]
  }

  /** What holds after every run, whatever failed in it. */
  ghost predicate Preserved<T>(digestOf: T -> string, start: World<T>, now: World<T>)
    requires Source in start.disk
  {
    && Intact(start, now)
    && (now.row.Some? ==>
          if now.row.value.phase == Completed then MovedCompletely(digestOf, start, now)
          else ReferencesUntouched(start, now))
  }

  /** One execution, and any number of restarts that recover, each with its own faults and possibly crashing
      again; `before` is what they leave behind.  Then one more restart in which nothing goes wrong. */
  method AnyRun<T(0,!new)>(
      digestOf: T -> string, start: World<T>, manifestEntries: nat, first: Faults, restarts: seq<Faults>)
    returns (engine: MoveEngine<T>, ghost before: World<T>)
    requires (forall tree :: digestOf(tree) != "") && Fresh(start)
    ensures fresh(engine) && engine.Valid() && Ascending(engine.trail)
    ensures Preserved(digestOf, start, before) && Preserved(digestOf, start, engine.Now())
    ensures !first.files && (forall faults | faults in restarts :: !faults.files) ==>
              forall now | now == before || now == engine.Now() ::
                now.row.Some? && Terminal(now.row.value.phase) ==> AllOrNothing(digestOf, start, now)
    ensures engine.Now() == Recovered(digestOf, before)
    ensures before.row.Some? ==>
              (Terminal(engine.row.value.phase) <==> !Hindered(digestOf, start, before)) &&
              Rank(before.row.value.phase) <= Rank(engine.row.value.phase)
  {
    engine := new MoveEngine(digestOf, first, start);
    var done := engine.Execute(start, manifestEntries);
    for i := 0 to |restarts|
      invariant fresh(engine) && engine.Valid() && engine.digestOf == digestOf
      invariant Kept(digestOf, engine.faults, start, engine.Now())
      invariant engine.faults.past ==> first.files || exists k | 0 <= k < i :: restarts[k].files
    {
      var faults := restarts[i].(past := engine.faults.past);
      engine := new MoveEngine.Resumed(digestOf, faults, engine.Now(), engine.trail);
      done := engine.RecoverOne(start);
    }
    before := engine.Now();
    engine := RecoverQuietly(digestOf, start, engine.Now(), engine.trail, engine.faults.past);
    if before.row.Some? {
      RecoveryTerminates(digestOf, start, before);
    }
  }

  /** A process in which nothing goes wrong, over any durable state, whatever failed before. */
  method RecoverQuietly<T(0,!new)>(
      digestOf: T -> string, ghost start: World<T>, now: World<T>, ghost trail: seq<Phase>, past: bool)
    returns (engine: MoveEngine<T>)
    requires (forall tree :: digestOf(tree) != "") && Safe(digestOf, start, now) && Follows(now.row, trail)
    requires past || Clean(digestOf, start, now)
    ensures fresh(engine) && engine.Valid() && trail <= engine.trail && engine.digestOf == digestOf
    ensures Safe(digestOf, start, engine.Now()) && engine.Now() == Recovered(digestOf, now)
    ensures past || Clean(digestOf, start, engine.Now())
  {
    engine := new MoveEngine.Resumed(digestOf, Faults(false, false, false, false, past), now, trail);
    var done := engine.RecoverOne(start);
  }

  /** A run of the engine in which everything works, except that the source cannot be moved to the trash and
      the process dies after it removed the destination again; then a restart in which nothing goes wrong.
      The move ends `Failed`, and the tree is in the trash and nowhere else. */
  method StrandingRun<T(0,!new)>(digestOf: T -> string, start: World<T>, manifestEntries: nat)
    returns (engine: MoveEngine<T>)
    requires (forall tree :: digestOf(tree) != "") && Fresh(start)
    requires Temporary !in start.disk && Trash !in start.disk
    ensures engine.row == Some(Operation(Failed, true, digestOf(start.disk[Source])))
    ensures engine.disk == (start.disk - {Source})[Trash := start.disk[Source]]
  {
    var script := Script({Move(Source, Trash)}, {Delete(Destination)});
    engine := new MoveEngine(digestOf, Faults(true, false, true, false, true, Some(script)), start);
    var done := engine.Execute(start, manifestEntries);
    FailedTrashStepStrandsSource(digestOf, start);
    engine := RecoverQuietly(digestOf, start, engine.Now(), engine.trail, true);
  }
}

/** The move engine on real trees with manifest digests. */
module MovedTrees {
  import opened CrossMove
  import opened Trees
  import opened Wrappers

  /** A completed move leaves the destination equal to the original tree, unless the digest of the
      one collides with the digest of the other. */
  lemma CompletedMoveIsFaithful(hash: Hash, start: World<Tree>, now: World<Tree>)
    requires HexDigests(hash) && Source in start.disk
    requires MovedCompletely(tree => TreeDigest(hash, tree), start, now)
    requires WellFormed(start.disk[Source]) && WellFormed(now.disk[Destination])
    ensures var original, arrived := start.disk[Source], now.disk[Destination];
            || arrived == original
            || Collide(hash, Manifest(hash, arrived), Manifest(hash, original))
            || exists path :: ContentsCollide(hash, arrived, original, path)
  {
    DigestDeterminesTree(hash, now.disk[Destination], start.disk[Source]);
  }
}
