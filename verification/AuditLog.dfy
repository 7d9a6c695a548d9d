/** The audit log over the hash chain: verification, transactions, backfill and retention. */
module AuditLog {
  import opened AuditEncoding
  import opened AuditChain
  import opened Wrappers

  datatype Verification = Verification(count: nat, lastID: nat, lastHash: Text)

  function LastID(rows: seq<Row>): nat {
    if rows == [] then 0 else rows[|rows| - 1].id
  }

  /** The number of leading rows a retention pass considers: it stops at the checkpoint and at the
      first row that is not old enough, and gives up on a row whose time is not an integer. */
  function Candidates(rows: seq<Row>, cutoff: int, preserveFrom: nat): (count: Option<nat>)
    ensures count.Some? ==> count.value <= |rows|
  {
    if rows == [] then Some(0)
    else if rows[0].occurredAt.NotANumber? then None
    else if (preserveFrom > 0 && rows[0].id >= preserveFrom) || rows[0].occurredAt.seconds >= cutoff then Some(0)
    else
      var rest := Candidates(rows[1..], cutoff, preserveFrom);
      if rest.None? then None else Some(1 + rest.value)
  }

  lemma {:induction false} CandidatesBefore(rows: seq<Row>, cutoff: int, preserveFrom: nat, i: nat)
    requires Candidates(rows, cutoff, preserveFrom).Some? && preserveFrom > 0
    requires i < Candidates(rows, cutoff, preserveFrom).value
    ensures rows[i].id < preserveFrom && rows[i].occurredAt.Number? && rows[i].occurredAt.seconds < cutoff
  {
    if i > 0 { CandidatesBefore(rows[1..], cutoff, preserveFrom, i - 1); }
  }

  lemma {:induction false} RetainedSnoc(chain: Chain, kept: nat, outcomes: seq<bool>, last: bool)
    requires kept + |outcomes| < |chain.rows|
    ensures var before := Retained(chain, kept, outcomes);
            var at := kept + |outcomes| - Deleted(outcomes);
            && |before.rows| == |chain.rows| - Deleted(outcomes)
            && before.rows[at] == chain.rows[kept + |outcomes|]
            && Retained(chain, kept, outcomes + [last]) == if last then Dropped(before, at) else before
    decreases |outcomes|
  {
    if outcomes == [] {
      assert Retained(chain, kept, [last]) ==
             if last then Retained(Dropped(chain, kept), kept, []) else Retained(chain, kept + 1, []);
    } else {
      assert (outcomes + [last])[1..] == outcomes[1..] + [last];
      if outcomes[0] {
        RetainedSnoc(Dropped(chain, kept), kept, outcomes[1..], last);
      } else {
        RetainedSnoc(chain, kept + 1, outcomes[1..], last);
      }
    }
  }

  function Deleted(outcomes: seq<bool>): (count: nat)
    ensures count <= |outcomes|
  {
    if outcomes == [] then 0 else (if outcomes[0] then 1 else 0) + Deleted(outcomes[1..])
  }

  lemma {:induction false} DeletedSnoc(outcomes: seq<bool>, last: bool)
    ensures Deleted(outcomes + [last]) == Deleted(outcomes) + if last then 1 else 0
  {
    if outcomes == [] {
      assert Deleted([last]) == (if last then 1 else 0) + Deleted([]);
    } else {
      assert (outcomes + [last])[1..] == outcomes[1..] + [last];
      DeletedSnoc(outcomes[1..], last);
    }
  }

  /** What may happen to one candidate: an unsafe one is skipped, another one only by a failure. */
  predicate Skips(chain: Chain, i: nat, unsafe: set<nat>, deleted: bool, reliable: bool)
    requires i < |chain.rows|
  {
    (deleted ==> chain.rows[i].id !in unsafe) && (reliable && chain.rows[i].id !in unsafe ==> deleted)
  }

  /** What a retention pass may do to its candidates. */
  predicate Sweeps(chain: Chain, cutoff: int, preserveFrom: nat, unsafe: set<nat>, outcomes: seq<bool>,
                   reliable: bool) {
    var candidates := Candidates(chain.rows, cutoff, preserveFrom);
    && |outcomes| == (if candidates.Some? then candidates.value else 0) <= |chain.rows|
    && forall i | 0 <= i < |outcomes| :: Skips(chain, i, unsafe, outcomes[i], reliable)
  }

  /** The row that the backfill loop seals next. */
  function SealedAnew(platform: Platform, previous: Text, row: Row): Row
    requires row.occurredAt.Number?
  {
    var event := Event(platform.format(row.occurredAt.seconds), Original(row.details));
    row.(previous := previous, hash := EventDigest(platform.hash, previous, event))
  }

  lemma {:induction false} BackfilledAt(platform: Platform, previous: Text, rows: seq<Row>, i: nat)
    requires i < |rows| && forall row | row in rows :: row.occurredAt.Number?
    ensures var all := Backfilled(platform, previous, rows);
            all[i] == SealedAnew(platform, EndOf(previous, all[..i]), rows[i])
    decreases i
  {
    var first := SealedAnew(platform, previous, rows[0]);
    var rest := Backfilled(platform, first.hash, rows[1..]);
    assert Backfilled(platform, previous, rows) == [first] + rest;
    if i > 0 {
      BackfilledAt(platform, first.hash, rows[1..], i - 1);
      assert ([first] + rest)[..i] == [first] + rest[..i - 1];
    }
  }

  class AuditLog {
    const platform: Platform
    const reliable: bool  // no database statement and no removal of a source file fails
    var chain: Chain

    constructor (platform: Platform, reliable: bool, chain: Chain)
      requires Sound(platform) && Indexed(chain)
      ensures this.platform == platform && this.reliable == reliable && this.chain == chain && Valid()
    {
      this.platform, this.reliable, this.chain := platform, reliable, chain;
    }

    ghost predicate Valid()
      reads this
    {
      Sound(platform) && Indexed(chain)
    }

    /** `verifyTransaction`: accepts exactly the chains that verify. */
    method Verify() returns (result: Option<Verification>)
      ensures result.Some? <==> Verifies(platform, chain)
      ensures result.Some? ==> result.value == Verification(|chain.rows|, LastID(chain.rows), chain.tail)
    {
      var previous, count, lastID := chain.anchor, 0, 0;
      while count < |chain.rows|
        invariant count <= |chain.rows| && previous == Before(chain.anchor, chain.rows, count)
        invariant lastID == if count == 0 then 0 else chain.rows[count - 1].id
        invariant forall i | 0 <= i < count :: LinkedAt(platform, chain.anchor, chain.rows, i)
      {
        var row := chain.rows[count];
        assert LinkedAt(platform, chain.anchor, chain.rows, count) <==>
               row.previous == previous && Sealed(platform, row);
        if row.occurredAt.NotANumber? || row.previous != previous { return None; }
        var expected := EventDigest(platform.hash, row.previous, ReadBack(platform, row));
        if row.hash == "" || row.hash != expected { return None; }
        previous, count, lastID := row.hash, count + 1, row.id;
      }
      if previous != chain.tail { return None; }
      return Some(Verification(count, lastID, chain.tail));
    }

    /** `verifyCheckpointTransaction`. */
    method VerifyCheckpoint(eventID: int, digest: Text) returns (holds: bool)
      requires Valid()
      ensures holds <==> eventID >= 0 && Holds(chain, eventID, digest)
    {
      if eventID < 0 || (digest == "" && eventID != 0) { return false; }
      if eventID == 0 { return chain.anchor == digest; }
      var i := 0;
      while i < |chain.rows|
        invariant i <= |chain.rows| && forall k | 0 <= k < i :: chain.rows[k].id != eventID
      {
        if chain.rows[i].id == eventID { return chain.rows[i].hash == digest; }
        i := i + 1;
      }
      return false;
    }

    /** `Store.Append`: begin, append, and commit or roll back. */
    method Append(event: Event) returns (id: Option<nat>)
      requires Valid()
      modifies this
      ensures Valid()
      ensures id.Some? ==> Appended(platform, old(chain), event) == Some(chain) && id.value == LastID(chain.rows)
      ensures id.None? ==> chain == old(chain)
      ensures reliable ==> (id.Some? <==> ValidResource(platform.redact(event.details)))
      ensures Verifies(platform, old(chain)) && Canonical(platform, event.occurredAt) ==> Verifies(platform, chain)
      ensures forall eventID, digest :: Holds(old(chain), eventID, digest) ==> Holds(chain, eventID, digest)
    {
      var transaction := new Transaction.Begin(this);
      id := transaction.Append(event);
      if id.None? {
        transaction.Rollback();
        return;
      }
      var committed := transaction.Commit();
      if !committed { id := None; }
      if Appended(platform, old(chain), event) == Some(chain) {
        if Verifies(platform, old(chain)) { AppendVerifiesIffCanonical(platform, old(chain), event); }
        forall eventID, digest | Holds(old(chain), eventID, digest) ensures Holds(chain, eventID, digest) {
          AppendKeepsCheckpoints(platform, old(chain), event, eventID, digest);
        }
      }
    }

    /** `BackfillTransaction`: seals every row anew from the genesis anchor, reading only the
        columns that existed before the chain; a row without an integer time aborts it. */
    method Backfill() returns (done: bool)
      modifies this
      ensures done <==> forall row | row in old(chain).rows :: row.occurredAt.Number?
      ensures !done ==> chain == old(chain)
      ensures done ==> var rows := Backfilled(platform, "", old(chain).rows);
                       chain == old(chain).(anchor := "", tail := EndOf("", rows), rows := rows)
    {
      var i := 0;
      while i < |chain.rows|
        invariant i <= |chain.rows| && forall k | 0 <= k < i :: chain.rows[k].occurredAt.Number?
      {
        if chain.rows[i].occurredAt.NotANumber? {
          assert chain.rows[i] in chain.rows;
          return false;
        }
        i := i + 1;
      }
      var filled, tail := SealAll(chain.rows);
      chain := chain.(anchor := "", tail := tail, rows := filled);
      return true;
    }

    method SealAll(rows: seq<Row>) returns (filled: seq<Row>, tail: Text)
      requires forall row | row in rows :: row.occurredAt.Number?
      ensures filled == Backfilled(platform, "", rows) && tail == EndOf("", filled)
    {
      filled, tail := [], "";
      ghost var all := Backfilled(platform, "", rows);
      while |filled| < |rows|
        invariant |filled| <= |rows| && filled == all[..|filled|] && tail == EndOf("", filled)
      {
        BackfilledAt(platform, "", rows, |filled|);
        var next := SealedAnew(platform, tail, rows[|filled|]);
        assert all[..|filled| + 1] == all[..|filled|] + [next];
        filled := filled + [next];
        tail := next.hash;
      }
    }

    /** `CleanupExpiredEventsBefore`: `outcomes` records which candidates were deleted.  A candidate whose
        run has unsafe source metadata is skipped without any failure. */
    method Cleanup(cutoff: int, preserveFrom: nat, unsafe: set<nat>) returns (deleted: nat, outcomes: seq<bool>)
      requires Valid()
      modifies this
      ensures Sweeps(old(chain), cutoff, preserveFrom, unsafe, outcomes, reliable)
      ensures Valid() && chain == Retained(old(chain), 0, outcomes) && deleted == Deleted(outcomes)
      ensures Verifies(platform, old(chain)) && PrefixOnly(outcomes) ==> Verifies(platform, chain)
      ensures Verifies(platform, old(chain)) && Verifies(platform, chain) ==>
                PrefixOnly(outcomes) || Repeats(old(chain))
      ensures preserveFrom > 0 ==>
                forall digest :: Holds(old(chain), preserveFrom, digest) ==> Holds(chain, preserveFrom, digest)
    {
      deleted, outcomes := 0, [];
      var candidates := Candidates(chain.rows, cutoff, preserveFrom);
      if candidates.None? { return; }
      ghost var before := chain;
      deleted, outcomes := DeleteCandidates(candidates.value, unsafe);
      if Verifies(platform, before) { RetentionVerifiesIffPrefix(platform, before, outcomes); }
      if preserveFrom > 0 {
        forall digest | Holds(before, preserveFrom, digest) ensures Holds(chain, preserveFrom, digest) {
          CheckpointSurvives(before, cutoff, preserveFrom, preserveFrom, outcomes, digest);
        }
      }
    }

    /** Moves the anchor to a candidate and deletes the one row with its ID. */
    method DeleteRow(at: nat, candidate: Row)
      requires Valid() && at < |chain.rows| && chain.rows[at] == candidate
      modifies this
      ensures Valid() && chain == Dropped(old(chain), at)
    {
      chain := chain.(anchor := candidate.hash, rows := chain.rows[..at] + chain.rows[at + 1..]);
    }

    /** One transaction per candidate: move the anchor, delete the row, or skip the candidate. */
    method DeleteCandidates(candidates: nat, unsafe: set<nat>) returns (deleted: nat, outcomes: seq<bool>)
      requires Valid() && candidates <= |chain.rows|
      modifies this
      ensures Valid() && |outcomes| == candidates
      ensures chain == Retained(old(chain), 0, outcomes) && deleted == Deleted(outcomes)
      ensures forall i | 0 <= i < candidates :: Skips(old(chain), i, unsafe, outcomes[i], reliable)
    {
      deleted, outcomes := 0, [];
      ghost var before := chain;
      var expired := chain.rows[..candidates];
      while |outcomes| < candidates
        invariant |outcomes| <= candidates && deleted == Deleted(outcomes)
        invariant Valid() && chain == Retained(before, 0, outcomes)
        invariant |chain.rows| == |before.rows| - deleted
        invariant forall i | 0 <= i < |outcomes| :: Skips(before, i, unsafe, outcomes[i], reliable)
        decreases candidates - |outcomes|
      {
        var candidate := expired[|outcomes|];
        var failed: bool := *;
        failed := candidate.id in unsafe || (failed && !reliable);
        RetainedSnoc(before, 0, outcomes, !failed);
        DeletedSnoc(outcomes, !failed);
        if !failed {
          DeleteRow(|outcomes| - deleted, candidate);
          deleted := deleted + 1;
        }
        outcomes := outcomes + [!failed];
      }
    }
  }

  /** Retention that is told an event ID at or before a checkpoint keeps that checkpoint, whatever it skips. */
  lemma CheckpointSurvives(chain: Chain, cutoff: int, preserveFrom: nat, eventID: nat, outcomes: seq<bool>,
                           digest: Text)
    requires 0 < preserveFrom <= eventID && Holds(chain, eventID, digest)
    requires Candidates(chain.rows, cutoff, preserveFrom) == Some(|outcomes|)
    ensures Holds(Retained(chain, 0, outcomes), eventID, digest)
  {
    var i :| 0 <= i < |chain.rows| && chain.rows[i].id == eventID && chain.rows[i].hash == digest;
    if i < |outcomes| { CandidatesBefore(chain.rows, cutoff, preserveFrom, i); }
    RetentionKeepsLaterRows(chain, 0, outcomes, i);
  }

  class Transaction {
    const log: AuditLog
    ghost const base: Chain  // what the log held at Begin; its mutex keeps it unchanged
    var work: Chain
    var finished: bool

    constructor Begin(log: AuditLog)
      ensures this.log == log && base == work == log.chain && !finished
    {
      this.log, base, work, finished := log, log.chain, log.chain, false;
    }

    /** Extends the transaction's view of the chain.  An SQL failure between the two statements
        leaves a row without its tail; only a rollback is sound after a failed append. */
    method Append(event: Event) returns (id: Option<nat>)
      modifies this`work
      ensures id.Some? ==>
                !finished && Appended(log.platform, old(work), event) == Some(work) && id.value == old(work).nextID
      ensures finished || !ValidResource(log.platform.redact(event.details)) ==> id.None? && work == old(work)
      ensures log.reliable && !finished && ValidResource(log.platform.redact(event.details)) ==> id.Some?
    {
      if finished { return None; }
      var details := log.platform.redact(event.details);
      if !ValidResource(details) { return None; }
      var digest := EventDigest(log.platform.hash, work.tail, Event(event.occurredAt, details));
      var insertFails: bool, updateFails: bool := *, *;
      if insertFails && !log.reliable { return None; }
      var row := Row(work.nextID, log.platform.affinity(event.occurredAt), details, work.tail, digest);
      work := work.(rows := work.rows + [row], nextID := work.nextID + 1);
      if updateFails && !log.reliable { return None; }
      work := work.(tail := digest);
      return Some(row.id);
    }

    method Commit() returns (committed: bool)
      requires log.chain == base
      modifies this`finished, log
      ensures finished && (committed ==> !old(finished) && log.chain == work) && (!committed ==> log.chain == base)
      ensures log.reliable && !old(finished) ==> committed
    {
      if finished { return false; }
      finished := true;
      committed := *;
      committed := committed || log.reliable;
      if committed { log.chain := work; }
    }

    method Rollback()
      modifies this`finished
      ensures finished
    {
      finished := true;
    }
  }

  // ---------------------------------------------------------------- whole histories

  datatype Action =
    | Transact(events: seq<Event>, commit: bool)
    | Retain(cutoff: int, preserveFrom: nat, unsafe: set<nat>)
    | Reseal

  datatype Report = Committed | RolledBack | Swept(outcomes: seq<bool>) | Resealed | Refused

  function AppendedAll(platform: Platform, chain: Chain, events: seq<Event>): Option<Chain> {
    if events == [] then Some(chain)
    else
      var before := AppendedAll(platform, chain, events[..|events| - 1]);
      if before.None? then None else Appended(platform, before.value, events[|events| - 1])
  }

  predicate AllNumbers(chain: Chain) {
    forall row | row in chain.rows :: row.occurredAt.Number?
  }

  function ResealedChain(platform: Platform, chain: Chain): Chain
    requires AllNumbers(chain)
  {
    var rows := Backfilled(platform, "", chain.rows);
    chain.(anchor := "", tail := EndOf("", rows), rows := rows)
  }

  /** What can be reported of an action; without failures there is no choice. */
  predicate Possible(platform: Platform, chain: Chain, action: Action, report: Report, reliable: bool) {
    match action
    case Transact(events, commit) =>
      && (report == Committed || report == RolledBack)
      && (report == Committed ==> commit && AppendedAll(platform, chain, events).Some?)
      && (reliable && commit && AppendedAll(platform, chain, events).Some? ==> report == Committed)
    case Retain(cutoff, preserveFrom, unsafe) =>
      report.Swept? && Sweeps(chain, cutoff, preserveFrom, unsafe, report.outcomes, reliable)
    case Reseal => report == if AllNumbers(chain) then Resealed else Refused
  }

  /** The chain after an action with this report. */
  function Result(platform: Platform, chain: Chain, action: Action, report: Report): Chain {
    if !Possible(platform, chain, action, report, false) then chain
    else
      match report
      case Committed => AppendedAll(platform, chain, action.events).value
      case Swept(outcomes) => Retained(chain, 0, outcomes)
      case Resealed => ResealedChain(platform, chain)
      case _ => chain
  }

  function Replay(platform: Platform, start: Chain, actions: seq<Action>, reports: seq<Report>): Chain
    requires |actions| == |reports|
  {
    if actions == [] then start
    else
      var last := |actions| - 1;
      Result(platform, Replay(platform, start, actions[..last], reports[..last]), actions[last], reports[last])
  }

  /** The chain before action `i`. */
  function ChainAt(platform: Platform, start: Chain, actions: seq<Action>, reports: seq<Report>, i: nat): Chain
    requires i <= |actions| == |reports|
  {
    Replay(platform, start, actions[..i], reports[..i])
  }

  predicate PossibleAt(platform: Platform, start: Chain, actions: seq<Action>, reports: seq<Report>, i: nat,
                       reliable: bool)
    requires i < |actions| == |reports|
  {
    Possible(platform, ChainAt(platform, start, actions, reports, i), actions[i], reports[i], reliable)
  }

  predicate AllPossible(platform: Platform, start: Chain, actions: seq<Action>, reports: seq<Report>, reliable: bool)
    requires |actions| == |reports|
  {
    forall i | 0 <= i < |actions| :: PossibleAt(platform, start, actions, reports, i, reliable)
  }

  /** The step keeps the chain verifying: appended times are canonical, retention skipped nothing before
      what it deleted, and a backfill met no later column. */
  predicate Careful(platform: Platform, chain: Chain, action: Action, report: Report) {
    && (report == Committed && action.Transact? ==>
          forall event | event in action.events :: Canonical(platform, event.occurredAt))
    && (report.Swept? ==> PrefixOnly(report.outcomes))
    && (report == Resealed ==> forall row | row in chain.rows :: row.details == Original(row.details))
  }

  /** The step keeps a checkpoint: retention is told an ID at or before it, and nothing is sealed anew. */
  predicate Preserving(action: Action, eventID: nat) {
    !action.Reseal? && (action.Retain? ==> 0 < action.preserveFrom <= eventID)
  }

  predicate AllCareful(platform: Platform, start: Chain, actions: seq<Action>, reports: seq<Report>)
    requires |actions| == |reports|
  {
    forall i {:trigger ChainAt(platform, start, actions, reports, i)} | 0 <= i < |actions| ::
      Careful(platform, ChainAt(platform, start, actions, reports, i), actions[i], reports[i])
  }

  lemma {:induction false} TransactionKeeps(platform: Platform, chain: Chain, events: seq<Event>, eventID: nat,
                                            digest: Text)
    requires Sound(platform) && Indexed(chain) && AppendedAll(platform, chain, events).Some?
    ensures var after := AppendedAll(platform, chain, events).value;
            && Indexed(after)
            && (Verifies(platform, chain) &&
                (forall event | event in events :: Canonical(platform, event.occurredAt)) ==>
                  Verifies(platform, after))
            && (Holds(chain, eventID, digest) ==> Holds(after, eventID, digest))
  {
    if events != [] {
      var last := |events| - 1;
      TransactionKeeps(platform, chain, events[..last], eventID, digest);
      var before := AppendedAll(platform, chain, events[..last]).value;
      assert events[last] in events;
      AppendIndexed(platform, before, events[last]);
      if Verifies(platform, before) { AppendVerifiesIffCanonical(platform, before, events[last]); }
      if Holds(before, eventID, digest) { AppendKeepsCheckpoints(platform, before, events[last], eventID, digest); }
    }
  }

  lemma AppendIndexed(platform: Platform, chain: Chain, event: Event)
    requires Indexed(chain) && Appended(platform, chain, event).Some?
    ensures Indexed(Appended(platform, chain, event).value)
  {
  }

  lemma {:induction false} RetainedIndexed(chain: Chain, kept: nat, outcomes: seq<bool>)
    requires Indexed(chain) && kept + |outcomes| <= |chain.rows|
    ensures Indexed(Retained(chain, kept, outcomes))
    decreases |outcomes|
  {
    if outcomes != [] {
      if outcomes[0] {
        RetainedIndexed(Dropped(chain, kept), kept, outcomes[1..]);
      } else {
        RetainedIndexed(chain, kept + 1, outcomes[1..]);
      }
    }
  }

  lemma {:induction false} BackfilledIDs(platform: Platform, previous: Text, rows: seq<Row>, i: nat)
    requires i < |rows| && forall row | row in rows :: row.occurredAt.Number?
    ensures Backfilled(platform, previous, rows)[i].id == rows[i].id
    decreases i
  {
    BackfilledAt(platform, previous, rows, i);
  }

  lemma ResultKeeps(platform: Platform, chain: Chain, action: Action, report: Report, eventID: nat, digest: Text)
    requires Sound(platform) && Indexed(chain)
    ensures var after := Result(platform, chain, action, report);
            && Indexed(after)
            && (Verifies(platform, chain) && Careful(platform, chain, action, report) ==> Verifies(platform, after))
            && (eventID > 0 && Holds(chain, eventID, digest) && Preserving(action, eventID) ==>
                  Holds(after, eventID, digest))
  {
    if Possible(platform, chain, action, report, false) {
      match action
      case Transact(events, _) =>
        if report == Committed { TransactionKeeps(platform, chain, events, eventID, digest); }
      case Retain(cutoff, preserveFrom, _) =>
        SweepKeeps(platform, chain, cutoff, preserveFrom, report.outcomes, eventID, digest);
      case Reseal =>
        if report == Resealed { ResealKeeps(platform, chain); }
    }
  }

  lemma SweepKeeps(platform: Platform, chain: Chain, cutoff: int, preserveFrom: nat, outcomes: seq<bool>,
                   eventID: nat, digest: Text)
    requires Indexed(chain) && |outcomes| <= |chain.rows|
    requires Candidates(chain.rows, cutoff, preserveFrom) == Some(|outcomes|) || outcomes == []
    ensures var after := Retained(chain, 0, outcomes);
            && Indexed(after) && (Verifies(platform, chain) && PrefixOnly(outcomes) ==> Verifies(platform, after))
            && (0 < preserveFrom <= eventID && Holds(chain, eventID, digest) ==> Holds(after, eventID, digest))
  {
    RetainedIndexed(chain, 0, outcomes);
    if Verifies(platform, chain) { RetentionVerifiesIffPrefix(platform, chain, outcomes); }
    if 0 < preserveFrom <= eventID && Holds(chain, eventID, digest) && outcomes != [] {
      CheckpointSurvives(chain, cutoff, preserveFrom, eventID, outcomes, digest);
    }
  }

  lemma ResealKeeps(platform: Platform, chain: Chain)
    requires Sound(platform) && Indexed(chain) && AllNumbers(chain)
    ensures var after := ResealedChain(platform, chain);
            && Indexed(after)
            && ((forall row | row in chain.rows :: row.details == Original(row.details)) ==> Verifies(platform, after))
  {
    BackfillVerifiesIffOriginal(platform, chain);
    var rows := Backfilled(platform, "", chain.rows);
    forall i | 0 <= i < |rows| ensures rows[i].id == chain.rows[i].id {
      BackfilledIDs(platform, "", chain.rows, i);
    }
  }

  /** A history of careful steps keeps the chain verifying, and preserving steps keep a checkpoint. */
  lemma {:induction false} ReplayKeeps(
    platform: Platform, start: Chain, actions: seq<Action>, reports: seq<Report>, eventID: nat, digest: Text)
    requires Sound(platform) && Indexed(start) && |actions| == |reports|
    ensures var end := Replay(platform, start, actions, reports);
            && Indexed(end)
            && (Verifies(platform, start) && AllCareful(platform, start, actions, reports) ==> Verifies(platform, end))
            && (eventID > 0 && Holds(start, eventID, digest) &&
                (forall action | action in actions :: Preserving(action, eventID)) ==>
                  Holds(end, eventID, digest))
    decreases |actions|
  {
    if actions != [] {
      var last := |actions| - 1;
      ReplayKeeps(platform, start, actions[..last], reports[..last], eventID, digest);
      CarefulBefore(platform, start, actions, reports);
      assert actions[last] in actions;
      ResultKeeps(platform, ChainAt(platform, start, actions, reports, last), actions[last], reports[last], eventID,
                  digest);
    }
  }

  lemma CarefulBefore(platform: Platform, start: Chain, actions: seq<Action>, reports: seq<Report>)
    requires |actions| == |reports| > 0
    ensures var last := |actions| - 1;
            AllCareful(platform, start, actions, reports) ==>
                AllCareful(platform, start, actions[..last], reports[..last])
  {
    var last := |actions| - 1;
    forall i | 0 <= i < last
      ensures ChainAt(platform, start, actions[..last], reports[..last], i) ==
              ChainAt(platform, start, actions, reports, i)
    {
      assert actions[..last][..i] == actions[..i] && reports[..last][..i] == reports[..i];
    }
  }

  /** Begins, appends until one fails, and commits or rolls back. */
  method RunTransaction(log: AuditLog, events: seq<Event>, commit: bool) returns (report: Report)
    requires log.Valid()
    modifies log
    ensures log.Valid()
    ensures Possible(log.platform, old(log.chain), Transact(events, commit), report, log.reliable)
    ensures log.chain == Result(log.platform, old(log.chain), Transact(events, commit), report)
  {
    var transaction := new Transaction.Begin(log);
    for i := 0 to |events|
      invariant transaction.log == log && transaction.base == log.chain == old(log.chain) && !transaction.finished
      invariant fresh(transaction)
      invariant AppendedAll(log.platform, old(log.chain), events[..i]) == Some(transaction.work)
    {
      assert events[..i + 1][..i] == events[..i];
      var id := transaction.Append(events[i]);
      if id.None? {
        transaction.Rollback();
        NoneStays(log.platform, old(log.chain), events, i + 1);
        return RolledBack;
      }
    }
    assert events[..|events|] == events;
    if commit {
      var committed := transaction.Commit();
      if committed {
        TransactionKeeps(log.platform, old(log.chain), events, 0, "");
        return Committed;
      }
    } else {
      transaction.Rollback();
    }
    return RolledBack;
  }

  lemma {:induction false} NoneStays(platform: Platform, chain: Chain, events: seq<Event>, i: nat)
    requires i <= |events|
    ensures AppendedAll(platform, chain, events[..i]).None? ==> AppendedAll(platform, chain, events).None?
    decreases |events|
  {
    if i < |events| {
      var last := |events| - 1;
      var earlier := events[..last];
      assert earlier[..i] == events[..i];
      NoneStays(platform, chain, earlier, i);
      assert AppendedAll(platform, chain, earlier).None? ==> AppendedAll(platform, chain, events).None?;
    } else {
      assert events[..i] == events;
    }
  }

  /** Any history of transactions -- committed, rolled back or failing anywhere -- of retention passes and
      of backfills: the chain is what the reported outcomes make of it, and keeps verifying and keeps a
      checkpoint as long as every step is careful or preserving. */
  method AnyHistory(log: AuditLog, actions: seq<Action>) returns (reports: seq<Report>)
    requires log.Valid()
    modifies log
    ensures log.Valid() && |reports| == |actions|
    ensures AllPossible(log.platform, old(log.chain), actions, reports, log.reliable)
    ensures log.chain == Replay(log.platform, old(log.chain), actions, reports)
    ensures Verifies(log.platform, old(log.chain)) && AllCareful(log.platform, old(log.chain), actions, reports) ==>
              Verifies(log.platform, log.chain)
    ensures forall eventID: nat, digest ::
              eventID > 0 && Holds(old(log.chain), eventID, digest) &&
              (forall action | action in actions :: Preserving(action, eventID)) ==>
                Holds(log.chain, eventID, digest)
  {
    reports := [];
    ghost var start := log.chain;
    for i := 0 to |actions|
      invariant log.Valid() && |reports| == i && log.chain == Replay(log.platform, start, actions[..i], reports)
      invariant AllPossible(log.platform, start, actions[..i], reports, log.reliable)
    {
      ghost var before := reports;
      var report := TakeStep(log, actions[i]);
      reports := reports + [report];
      ReplayMore(log.platform, start, actions[..i], before, actions[i], report, log.reliable);
      assert actions[..i + 1] == actions[..i] + [actions[i]];
    }
    assert actions[..|actions|] == actions;
    ReplayKeeps(log.platform, start, actions, reports, 0, "");
    forall eventID: nat, digest | eventID > 0 && Holds(start, eventID, digest) &&
                                  (forall action | action in actions :: Preserving(action, eventID))
      ensures Holds(log.chain, eventID, digest)
    {
      ReplayKeeps(log.platform, start, actions, reports, eventID, digest);
    }
  }

  method TakeStep(log: AuditLog, action: Action) returns (report: Report)
    requires log.Valid()
    modifies log
    ensures log.Valid() && Possible(log.platform, old(log.chain), action, report, log.reliable)
    ensures log.chain == Result(log.platform, old(log.chain), action, report)
  {
    match action
    case Transact(events, commit) =>
      report := RunTransaction(log, events, commit);
    case Retain(cutoff, preserveFrom, unsafe) =>
      var _, outcomes := log.Cleanup(cutoff, preserveFrom, unsafe);
      report := Swept(outcomes);
    case Reseal =>
      ghost var before := log.chain;
      var done := log.Backfill();
      if done { ResealKeeps(log.platform, before); }
      report := if done then Resealed else Refused;
  }

  lemma ReplayMore(platform: Platform, start: Chain, actions: seq<Action>, reports: seq<Report>,
                   action: Action, report: Report, reliable: bool)
    requires |actions| == |reports| && AllPossible(platform, start, actions, reports, reliable)
    requires Possible(platform, Replay(platform, start, actions, reports), action, report, reliable)
    ensures Replay(platform, start, actions + [action], reports + [report]) ==
            Result(platform, Replay(platform, start, actions, reports), action, report)
    ensures AllPossible(platform, start, actions + [action], reports + [report], reliable)
  {
    var longer, all := actions + [action], reports + [report];
    assert longer[..|actions|] == actions && all[..|actions|] == reports;
    forall k | 0 <= k < |longer| ensures PossibleAt(platform, start, longer, all, k, reliable) {
      assert k < |actions| ==> longer[..k] == actions[..k] && all[..k] == reports[..k];
      assert k < |actions| ==> PossibleAt(platform, start, actions, reports, k, reliable);
    }
  }
}
