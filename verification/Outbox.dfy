/** The outbox between the dashboard's database and the Broker that owns Registry connections.

    A change is prepared at the Broker, decided by the database transaction that also writes its
    outbox row, and then committed and acknowledged at the Broker.  A call may be lost before or after
    the Broker served it, the Broker may fail to write its store, a database statement may fail, and
    the process may die after every effect, as far as `faults` allows.  Operation IDs are numbered in
    the order of creation. */
module Outbox {
  import opened Wrappers

  const MAX_PENDING: nat := 128
  const MAX_COMPLETED: nat := 10_000
  const MAX_CONNECTIONS: nat := 100

  type Id = nat

  datatype Change = Put(card: string, connection: string) | Delete(card: string)

  datatype Phase = Prepared | Committed

  datatype Operation = Operation(id: Id, phase: Phase)

  datatype Outcome = Done | Failed | Crashed

  datatype Faults = Faults(crashes: bool, link: bool, store: bool, broker: bool)

  const NO_FAULTS := Faults(false, false, false, false)

  // ---------------------------------------------------------------- connections and their history

  function Changed(active: map<string, string>, change: Change): map<string, string> {
    match change
    case Put(card, connection) => active[card := connection]
    case Delete(card) => active - {card}
  }

  /** The connections after the changes took effect one after the other. */
  function AllChanged(active: map<string, string>, changes: seq<Change>): map<string, string> {
    if changes == [] then active
    else Changed(AllChanged(active, changes[..|changes| - 1]), changes[|changes| - 1])
  }

  /** The operations that took effect since the start, the latest outermost. */
  datatype History = Start(active: map<string, string>) | After(before: History, id: Id, change: Change)

  function Result(history: History): map<string, string> {
    match history
    case Start(active) => active
    case After(before, _, change) => Changed(Result(before), change)
  }

  function Origin(history: History): map<string, string> {
    match history
    case Start(active) => active
    case After(before, _, _) => Origin(before)
  }

  function Applied(history: History): set<Id> {
    match history
    case Start(_) => {}
    case After(before, id, _) => Applied(before) + {id}
  }

  /** Every operation took effect with the change that was decided for it, and none twice. */
  ghost predicate Faithful(history: History, decided: map<Id, Change>) {
    match history
    case Start(_) => true
    case After(before, id, change) =>
      Faithful(before, decided) && id !in Applied(before) && id in decided && decided[id] == change
  }

  /** The last operation that changed a card. */
  function LastOn(history: History, card: string): Option<Id> {
    match history
    case Start(_) => None
    case After(before, id, change) => if change.card == card then Some(id) else LastOn(before, card)
  }

  /** A card has the connection that its last operation gave it. */
  lemma {:induction false} LastDecides(history: History, decided: map<Id, Change>, card: string)
    requires Faithful(history, decided)
    ensures match LastOn(history, card)
            case None =>
              (card in Result(history) <==> card in Origin(history)) &&
              (card in Origin(history) ==> Result(history)[card] == Origin(history)[card])
            case Some(id) =>
              && id in Applied(history) && id in decided && decided[id].card == card
              && (card in Result(history) <==> decided[id].Put?)
              && (decided[id].Put? ==> Result(history)[card] == decided[id].connection)
  {
    if history.After? {
      LastDecides(history.before, decided, card);
    }
  }

  lemma {:induction false} AppliedIsDecided(history: History, decided: map<Id, Change>)
    requires Faithful(history, decided)
    ensures Applied(history) <= decided.Keys
  {
    if history.After? {
      AppliedIsDecided(history.before, decided);
    }
  }

  lemma {:induction false} MoreDecided(history: History, decided: map<Id, Change>, more: map<Id, Change>)
    requires Faithful(history, decided) && Submap(decided, more)
    ensures Faithful(history, more)
  {
    if history.After? {
      MoreDecided(history.before, decided, more);
    }
  }

  ghost predicate Submap<V(!new)>(part: map<Id, V>, whole: map<Id, V>) {
    forall id | id in part :: id in whole && part[id] == whole[id]
  }

  // ---------------------------------------------------------------- the Broker

  class Broker {
    var active: map<string, string>
    var pending: map<Id, Change>
    /** Receipts of committed operations that were not acknowledged yet. */
    var completed: set<Id>
    ghost var history: History

    ghost predicate Valid() reads this {
      active == Result(history)
    }

    constructor (active: map<string, string>)
      ensures Valid() && pending == map[] && completed == {} && history == Start(active)
    {
      this.active, pending, completed := active, map[], {};
      history := Start(active);
    }

    /** Stores a change without effect; `valid` is the outcome of validation, and `stored` says whether
        the store can be written, which includes its bound of one mebibyte.  Like every call it begins by
        loading the store. */
    method Prepare(id: Id, change: Change, valid: bool, stored: bool) returns (ok: bool)
      requires Valid()
      modifies this`pending
      ensures Valid()
      ensures ok <==> valid && Loads(active) &&
                      (id in completed || if id in old(pending) then old(pending)[id] == change
                                          else stored && HasRoom(|old(pending)|, active, change))
      ensures pending == if ok && id !in completed then old(pending)[id := change] else old(pending)
    {
      if !valid || !Loads(active) { return false; }
      if id in completed { return true; }
      if id in pending { return pending[id] == change; }
      if |pending| >= MAX_PENDING { return false; }
      if change.Put? && change.card !in active && |active| >= MAX_CONNECTIONS { return false; }
      if !stored { return false; }
      pending := pending[id := change];
      return true;
    }

    method Commit(id: Id, stored: bool) returns (ok: bool)
      requires Valid()
      modifies this
      ensures Valid()
      ensures ok <==> Loads(old(active)) &&
                      (id in old(completed) || (id in old(pending) && |old(completed)| < MAX_COMPLETED && stored))
      ensures if ok && id !in old(completed) then
                pending == old(pending) - {id} && completed == old(completed) + {id} &&
                history == After(old(history), id, old(pending)[id])
              else unchanged(this)
    {
      if !Loads(active) { return false; }
      if id in completed { return true; }
      if id !in pending { return false; }
      if |completed| >= MAX_COMPLETED { return false; }
      if !stored { return false; }
      active := Changed(active, pending[id]);
      history := After(history, id, pending[id]);
      pending := pending - {id};
      completed := completed + {id};
      return true;
    }

    method Acknowledge(id: Id, stored: bool) returns (ok: bool)
      requires Valid()
      modifies this`completed
      ensures Valid() && (ok <==> Loads(active) && id !in pending && (stored || id !in old(completed)))
      ensures completed == if ok then old(completed) - {id} else old(completed)
    {
      if !Loads(active) || id in pending { return false; }
      if id in completed && !stored { return false; }
      completed := completed - {id};
      return true;
    }

    method Abort(id: Id, stored: bool) returns (ok: bool)
      requires Valid()
      modifies this`pending
      ensures Valid() && (ok <==> Loads(active) && (id in completed || id !in old(pending) || stored))
      ensures pending == if !ok || id in completed then old(pending) else old(pending) - {id}
    {
      if !Loads(active) { return false; }
      if id in completed || id !in pending { return true; }
      if !stored { return false; }
      pending := pending - {id};
      return true;
    }
  }

  /** The Broker reads back a store with these connections. */
  predicate Loads(active: map<string, string>) {
    |active| <= MAX_CONNECTIONS
  }

  /** There is room to prepare one more change; only connections that are in effect count. */
  predicate HasRoom(pending: nat, active: map<string, string>, change: Change) {
    && Loads(active) && pending < MAX_PENDING
    && (change.Put? && change.card !in active ==> |active| < MAX_CONNECTIONS)
  }

  // ---------------------------------------------------------------- what every durable state satisfies

  /** The durable state of both sides, with the changes whose transaction committed. */
  datatype World = World(
    history: History,
    pending: map<Id, Change>,
    completed: set<Id>,
    rows: map<Id, Phase>,
    decided: map<Id, Change>,
    issued: nat)

  /** The decision of the database and the effect at the Broker agree: only decided changes take effect,
      as decided and none twice, each of them has either taken effect or is still pending with its row,
      and the Broker keeps a receipt only for an operation with a row. */
  ghost predicate Agree(w: World) {
    && Faithful(w.history, w.decided)
    && (forall id | id in w.decided :: id in w.pending <==> id !in Applied(w.history))
    && (forall id | id in w.decided && id in w.pending :: w.pending[id] == w.decided[id])
    && (forall id | id in w.decided && id in w.pending :: id in w.rows)
    && (forall id | id in w.rows :: id in w.decided)
    && (forall id | id in w.completed :: id in Applied(w.history) && id in w.rows)
    && (forall id | id in w.rows ::
          if w.rows[id].Prepared? then id in w.pending || id in w.completed else id !in w.pending)
    && (forall id | id in w.decided || id in w.pending :: id < w.issued)
  }

  /** Every decided change has taken effect exactly once and nothing is left to do for it. */
  ghost predicate Settled(w: World) {
    && Faithful(w.history, w.decided) && Applied(w.history) == w.decided.Keys
    && w.rows == map[] && w.completed == {}
    && forall id | id in w.decided :: id !in w.pending
  }

  // ---------------------------------------------------------------- single steps

  datatype Move =
    | Prepare(change: Change)
    | Refuse
    | Abort(id: Id)
    | Decide(ids: set<Id>)
    | Commit(id: Id)
    | Mark(id: Id)
    | Acknowledge(id: Id)
    | Drop(id: Id)

  /** When a step can happen. */
  predicate Allowed(w: World, move: Move) {
    match move
    case Prepare(change) => HasRoom(|w.pending|, Result(w.history), change)
    case Refuse => true
    case Abort(id) => Loads(Result(w.history)) && id !in w.decided
    case Decide(ids) => ids <= w.pending.Keys && ids !! w.decided.Keys
    case Commit(id) =>
      Loads(Result(w.history)) && id in w.rows && id in w.pending && |w.completed| < MAX_COMPLETED
    case Mark(id) => id in w.rows && id !in w.pending
    case Acknowledge(id) => Loads(Result(w.history)) && id in w.rows && w.rows[id].Committed?
    case Drop(id) => id in w.rows && w.rows[id].Committed? && id !in w.completed
  }

  function Part(pending: map<Id, Change>, ids: set<Id>): map<Id, Change>
  {
    map id | id in pending && id in ids :: pending[id]
  }

  function NewRows(ids: set<Id>): map<Id, Phase> {
    map id | id in ids :: Prepared
  }

  /** A pending operation takes effect when it is delivered; another one did before. */
  function Delivered(w: World, id: Id): World {
    w.(history := if id in w.pending then After(w.history, id, w.pending[id]) else w.history,
       pending := w.pending - {id}, completed := w.completed + {id})
  }

  /** What a step does, where it can happen. */
  function Moved(w: World, move: Move): World {
    match move
    case Prepare(change) => w.(pending := w.pending[w.issued := change], issued := w.issued + 1)
    case Refuse => w.(issued := w.issued + 1)
    case Abort(id) => w.(pending := w.pending - {id})
    case Decide(ids) => w.(rows := w.rows + NewRows(ids), decided := w.decided + Part(w.pending, ids))
    case Commit(id) => Delivered(w, id)
    case Mark(id) => w.(rows := w.rows[id := Committed])
    case Acknowledge(id) => w.(completed := w.completed - {id})
    case Drop(id) => w.(rows := w.rows - {id})
  }

  /** Every step keeps the agreement. */
  lemma MoveKeeps(w: World, move: Move)
    requires Agree(w) && Allowed(w, move)
    ensures Agree(Moved(w, move))
  {
    if move.Decide? {
      DecideKeeps(w, move.ids);
    } else if move.Commit? {
      CommitKeeps(w, move.id);
    } else {
      AppliedIsDecided(w.history, w.decided);
    }
  }

  lemma CommitKeeps(w: World, id: Id)
    requires Agree(w) && Allowed(w, Commit(id))
    ensures Agree(Delivered(w, id))
  {
    assert id !in Applied(w.history);
  }

  lemma DecideKeeps(w: World, ids: set<Id>)
    requires Agree(w) && Allowed(w, Decide(ids))
    ensures Agree(Moved(w, Decide(ids)))
  {
    AppliedIsDecided(w.history, w.decided);
    DecidedGrows(w, ids);
    RowsGrow(w.rows, ids);
    MoreDecided(w.history, w.decided, w.decided + Part(w.pending, ids));
  }

  lemma DecidedGrows(w: World, ids: set<Id>)
    requires ids <= w.pending.Keys && ids !! w.decided.Keys
    ensures var decided := w.decided + Part(w.pending, ids);
            && Submap(w.decided, decided) && decided.Keys == w.decided.Keys + ids
            && forall id | id in ids :: decided[id] == w.pending[id]
  {
  }

  lemma RowsGrow(rows: map<Id, Phase>, ids: set<Id>)
    ensures var more := rows + NewRows(ids);
            && more.Keys == rows.Keys + ids
            && forall id | id in more :: more[id] == if id in ids then Prepared else rows[id]
  {
  }

  /** Once the Broker has too many connections in effect, no step changes anything there any more. */
  lemma CrowdedForGood(w: World, move: Move)
    requires !Loads(Result(w.history)) && Allowed(w, move)
    ensures var v := Moved(w, move);
            v.history == w.history && v.pending == w.pending && v.completed == w.completed
  {
  }

  /** Any run of single steps from an empty outbox. */
  datatype Run = Begin(active: map<string, string>) | Step(before: Run, move: Move)

  function State(run: Run): World {
    match run
    case Begin(active) => World(Start(active), map[], {}, map[], map[], 0)
    case Step(before, move) => Moved(State(before), move)
  }

  predicate Legal(run: Run) {
    run.Step? ==> Legal(run.before) && Allowed(State(run.before), run.move)
  }

  /** Both sides agree after every run. */
  lemma {:induction false} RunAgrees(run: Run)
    requires Legal(run)
    ensures Agree(State(run))
  {
    if run.Step? {
      RunAgrees(run.before);
      MoveKeeps(State(run.before), run.move);
    }
  }

  // ---------------------------------------------------------------- finishing operations

  predicate Ascending(operations: seq<Operation>) {
    forall i, j | 0 <= i < j < |operations| :: operations[i].id < operations[j].id
  }

  predicate Listed(operations: seq<Operation>, rows: map<Id, Phase>) {
    Ascending(operations) && forall i | 0 <= i < |operations| ::
      operations[i].id in rows && rows[operations[i].id] == operations[i].phase
  }

  function Earlier(operations: seq<Operation>, n: nat): set<Id>
    requires n <= |operations|
  {
    set j | 0 <= j < n :: operations[j].id
  }

  function Noted(w: World, id: Id): World {
    Delivered(w, id).(rows := w.rows[id := Committed])
  }

  /** The operation has taken effect and both sides have forgotten it. */
  function Finished(w: World, id: Id): World {
    Delivered(w, id).(completed := w.completed - {id}, rows := w.rows - {id})
  }

  function AllFinished(w: World, operations: seq<Operation>, n: nat): World
    requires n <= |operations|
  {
    if n == 0 then w else Finished(AllFinished(w, operations, n - 1), operations[n - 1].id)
  }

  lemma {:induction false} AllFinishedIs(w: World, operations: seq<Operation>, n: nat)
    requires n <= |operations|
    ensures var v, done := AllFinished(w, operations, n), Earlier(operations, n);
            && v.pending == w.pending - done && v.completed == w.completed - done && v.rows == w.rows - done
            && v.decided == w.decided && v.issued == w.issued && Origin(v.history) == Origin(w.history)
  {
    if n > 0 {
      AllFinishedIs(w, operations, n - 1);
      assert Earlier(operations, n) == Earlier(operations, n - 1) + {operations[n - 1].id};
    }
  }

  lemma NextOperation(w: World, operations: seq<Operation>, n: nat)
    requires n < |operations| && Listed(operations, w.rows)
    ensures var v, id := AllFinished(w, operations, n), operations[n].id;
            && id in v.rows && v.rows[id] == operations[n].phase
            && (id in v.pending <==> id in w.pending) && (id in w.pending ==> v.pending[id] == w.pending[id])
  {
    AllFinishedIs(w, operations, n);
    assert operations[n].id !in Earlier(operations, n);
  }

  /** The Broker refuses the first call of a turn: it cannot load its store, or it has no room for the
      receipt of an operation that is still to be committed. */
  predicate Refused(w: World, id: Id) {
    !Loads(Result(w.history)) || (id in w.pending && |w.completed| >= MAX_COMPLETED)
  }

  /** A turn fails although nothing goes wrong: its first call is refused, or its commit leaves a store
      that cannot be loaded for its acknowledgement. */
  predicate Fails(w: World, id: Id) {
    Refused(w, id) || !Loads(Result(Delivered(w, id).history))
  }

  /** What such a turn leaves behind. */
  function Halted(w: World, id: Id): World {
    if Refused(w, id) then w else Noted(w, id)
  }

  /** Nothing but the operation `id` changed, and no decision. */
  ghost predicate KeepsOthers(before: World, now: World, id: Id) {
    && now.decided == before.decided && now.issued == before.issued
    && Origin(now.history) == Origin(before.history)
    && now.rows - {id} == before.rows - {id} && now.rows.Keys <= before.rows.Keys
    && now.pending - {id} == before.pending - {id} && Submap(now.pending, before.pending)
  }

  /** The operations `ids`, and nothing else, were at most finished. */
  ghost predicate Touches(before: World, now: World, ids: set<Id>) {
    && now.decided == before.decided && now.issued == before.issued
    && Origin(now.history) == Origin(before.history)
    && now.rows - ids == before.rows - ids && now.rows.Keys <= before.rows.Keys
    && now.pending - ids == before.pending - ids && Submap(now.pending, before.pending)
  }

  lemma StoppedAt(before: World, now: World, operations: seq<Operation>, n: nat)
    requires n <= |operations|
    requires if n < |operations| then KeepsOthers(AllFinished(before, operations, n), now, operations[n].id)
             else now == AllFinished(before, operations, n)
    ensures Touches(before, now, Earlier(operations, |operations|))
  {
    AllFinishedIs(before, operations, n);
    var ids := Earlier(operations, |operations|);
    assert Earlier(operations, n) <= ids;
    if n < |operations| {
      var w, id := AllFinished(before, operations, n), operations[n].id;
      assert id in ids;
      Without(now.rows, w.rows, {id}, ids);
      Without(now.pending, w.pending, {id}, ids);
    }
    assert before.rows - Earlier(operations, n) - ids == before.rows - ids;
    assert before.pending - Earlier(operations, n) - ids == before.pending - ids;
  }

  lemma Without<V>(a: map<Id, V>, b: map<Id, V>, few: set<Id>, many: set<Id>)
    requires a - few == b - few && few <= many
    ensures a - many == b - many
  {
    assert a - many == a - few - many;
    assert b - many == b - few - many;
  }

  // ---------------------------------------------------------------- what a restart can finish

  /** The receipts of operations later than `id`. */
  function LaterReceipts(w: World, id: Id): set<Id> {
    set later | later in w.completed && later > id
  }

  /** Some operation still has to be committed while the receipts of later ones fill the Broker. */
  ghost predicate ReceiptsBlock(w: World) {
    exists id :: id in w.rows && id in w.pending && |LaterReceipts(w, id)| >= MAX_COMPLETED
  }

  /** The connections once the operations below `n` that are still to be committed are in effect. */
  function Through(w: World, n: nat): map<string, string> {
    if n == 0 then Result(w.history)
    else if n - 1 in w.rows && n - 1 in w.pending then Changed(Through(w, n - 1), w.pending[n - 1])
    else Through(w, n - 1)
  }

  /** There is something to finish, and too many connections are in effect at some turn. */
  ghost predicate CrowdBlocks(w: World) {
    w.rows != map[] && exists n | 0 <= n <= w.issued :: !Loads(Through(w, n))
  }

  ghost predicate Blocked(w: World) {
    ReceiptsBlock(w) || CrowdBlocks(w)
  }

  lemma FewRowsDoNotBlock(w: World)
    requires Agree(w) && |w.rows| <= MAX_COMPLETED
    ensures Blocked(w) <==> CrowdBlocks(w)
  {
    forall id | id in w.rows && id in w.pending ensures |LaterReceipts(w, id)| < MAX_COMPLETED {
      SubsetSize(LaterReceipts(w, id), w.rows.Keys - {id});
    }
  }

  /** The cards that an operation still to be committed may add. */
  function Coming(w: World): set<string> {
    set id | id in w.rows && id in w.pending && w.pending[id].Put? :: w.pending[id].card
  }

  lemma {:induction false} ThroughAdds(w: World, n: nat)
    ensures Through(w, n).Keys <= Result(w.history).Keys + Coming(w)
  {
    if n > 0 {
      ThroughAdds(w, n - 1);
      assert n - 1 in w.rows && n - 1 in w.pending && w.pending[n - 1].Put? ==> w.pending[n - 1].card in Coming(w);
    }
  }

  /** No turn has too many connections while those in effect and those to come fit together. */
  lemma RoomForAllDoesNotBlock(w: World)
    requires |Result(w.history).Keys + Coming(w)| <= MAX_CONNECTIONS
    ensures !CrowdBlocks(w)
  {
    forall n | 0 <= n <= w.issued ensures Loads(Through(w, n)) {
      ThroughAdds(w, n);
      SubsetSize(Through(w, n).Keys, Result(w.history).Keys + Coming(w));
    }
  }

  lemma {:induction false} SubsetSize<T>(a: set<T>, b: set<T>)
    requires a <= b
    ensures |a| <= |b|
    decreases a
  {
    if a != {} {
      var x :| x in a;
      SubsetSize(a - {x}, b - {x});
    }
  }

  /** All rows, in the order of creation. */
  ghost predicate AllListed(operations: seq<Operation>, w: World) {
    Listed(operations, w.rows) && Earlier(operations, |operations|) == w.rows.Keys
  }

  lemma BlockedWhenFails(w: World, operations: seq<Operation>)
    requires Agree(w) && AllListed(operations, w)
    ensures Blocked(w) <==> exists i | 0 <= i < |operations| :: FailsAt(w, operations, i)
  {
    if ReceiptsBlock(w) {
      ReceiptsFail(w, operations);
    }
    if CrowdBlocks(w) {
      CrowdFails(w, operations);
    }
    forall i | 0 <= i < |operations| && FailsAt(w, operations, i) ensures Blocked(w) {
      FailBlocks(w, operations, i);
    }
  }

  /** Finishing all operations in order fails at the turn `i` if not before. */
  ghost predicate FailsAt(w: World, operations: seq<Operation>, i: nat)
    requires i < |operations|
  {
    Fails(AllFinished(w, operations, i), operations[i].id)
  }

  lemma ReceiptsFail(w: World, operations: seq<Operation>)
    requires Agree(w) && AllListed(operations, w) && ReceiptsBlock(w)
    ensures exists i | 0 <= i < |operations| :: FailsAt(w, operations, i)
  {
    var id :| id in w.rows && id in w.pending && |LaterReceipts(w, id)| >= MAX_COMPLETED;
    assert id in Earlier(operations, |operations|);
    var i :| 0 <= i < |operations| && operations[i].id == id;
    TurnOf(w, operations, i);
    assert FailsAt(w, operations, i);
  }

  lemma CrowdFails(w: World, operations: seq<Operation>)
    requires Agree(w) && AllListed(operations, w) && CrowdBlocks(w)
    ensures exists i | 0 <= i < |operations| :: FailsAt(w, operations, i)
  {
    var n :| 0 <= n <= w.issued && !Loads(Through(w, n));
    var i := ThroughAt(w, operations, n);
    if i < |operations| {
      assert FailsAt(w, operations, i);
    } else {
      SomeListed(w, operations);
      TurnHistory(w, operations, i - 1);
      assert FailsAt(w, operations, i - 1);
    }
  }

  lemma SomeListed(w: World, operations: seq<Operation>)
    requires AllListed(operations, w) && w.rows != map[]
    ensures operations != []
  {
    var id :| id in w.rows;
    assert id in Earlier(operations, |operations|);
  }

  lemma FailBlocks(w: World, operations: seq<Operation>, i: nat)
    requires Agree(w) && AllListed(operations, w) && i < |operations| && FailsAt(w, operations, i)
    ensures Blocked(w)
  {
    var v, id := AllFinished(w, operations, i), operations[i].id;
    assert id in w.rows && id < w.issued;
    if !Loads(Result(v.history)) {
      ThroughTurn(w, operations, i);
    } else if Refused(v, id) {
      TurnOf(w, operations, i);
      assert ReceiptsBlock(w);
    } else {
      ThroughTurn(w, operations, i);
    }
  }

  lemma ThroughTurn(w: World, operations: seq<Operation>, i: nat)
    requires Agree(w) && AllListed(operations, w) && i < |operations|
    ensures var v, id := AllFinished(w, operations, i), operations[i].id;
            Through(w, id) == Result(v.history) && Through(w, id + 1) == Result(Delivered(v, id).history)
  {
    var id := operations[i].id;
    var j := ThroughAt(w, operations, id);
    assert !(i < j) && !(j < i);
    TurnHistory(w, operations, i);
    assert id in w.rows;
  }

  /** What a turn does to the connections. */
  lemma TurnHistory(w: World, operations: seq<Operation>, i: nat)
    requires i < |operations| && Listed(operations, w.rows)
    ensures var v, id := AllFinished(w, operations, i), operations[i].id;
            && AllFinished(w, operations, i + 1).history == Delivered(v, id).history
            && Result(Delivered(v, id).history) ==
               if id in w.pending then Changed(Result(v.history), w.pending[id]) else Result(v.history)
  {
    NextOperation(w, operations, i);
  }

  /** The connections below `n` are those at the first turn from `n` on. */
  lemma {:induction false} ThroughAt(w: World, operations: seq<Operation>, n: nat) returns (i: nat)
    requires AllListed(operations, w)
    ensures i <= |operations| && Splits(operations, n, i)
    ensures Through(w, n) == Result(AllFinished(w, operations, i).history)
  {
    if n == 0 {
      i := 0;
    } else {
      i := ThroughAt(w, operations, n - 1);
      if n - 1 in w.rows {
        ListedAt(w, operations, n - 1, i);
        TurnHistory(w, operations, i);
        i := i + 1;
      } else {
        NotListedAt(w, operations, n - 1);
      }
    }
  }

  /** The first `i` operations are those below `n`. */
  predicate Splits(operations: seq<Operation>, n: nat, i: nat) {
    forall j | 0 <= j < |operations| :: j < i <==> operations[j].id < n
  }

  lemma NotListedAt(w: World, operations: seq<Operation>, id: Id)
    requires AllListed(operations, w) && id !in w.rows
    ensures forall j | 0 <= j < |operations| :: operations[j].id != id
  {
  }

  lemma ListedAt(w: World, operations: seq<Operation>, id: Id, i: nat)
    requires AllListed(operations, w) && id in w.rows
    requires Splits(operations, id, i)
    ensures i < |operations| && operations[i].id == id && Splits(operations, id + 1, i + 1)
  {
    assert id in Earlier(operations, |operations|);
    var j :| 0 <= j < |operations| && operations[j].id == id;
    var k := if i < j then i else j;
    assert operations[k].id <= operations[j].id;
  }

  /** When its turn comes, the receipts that are left belong to later operations. */
  lemma TurnOf(w: World, operations: seq<Operation>, i: nat)
    requires Agree(w) && AllListed(operations, w) && i < |operations|
    ensures var v, id := AllFinished(w, operations, i), operations[i].id;
            && id in v.rows && (id in v.pending <==> id in w.pending)
            && (id in w.pending ==> v.completed == LaterReceipts(w, id) == LaterReceipts(v, id))
  {
    NextOperation(w, operations, i);
    AllFinishedIs(w, operations, i);
    if operations[i].id in w.pending {
      forall id | id in w.completed ensures id !in Earlier(operations, i) <==> id > operations[i].id {
        assert id in Earlier(operations, |operations|);
        var j :| 0 <= j < |operations| && operations[j].id == id;
        assert id in Applied(w.history) && id != operations[i].id;
      }
    }
  }

  lemma NoRowsSettled(w: World)
    requires Agree(w) && w.rows == map[]
    ensures Settled(w) && !Blocked(w)
  {
    AppliedIsDecided(w.history, w.decided);
  }

  // ---------------------------------------------------------------- which change of a card comes last

  /** The last operation on the card is the latest decided one. */
  ghost predicate UpToDate(w: World, card: string) {
    IsUpToDate(w.decided, card, LastOn(w.history, card))
  }

  ghost predicate IsUpToDate(decided: map<Id, Change>, card: string, last: Option<Id>) {
    forall id | id in decided && decided[id].card == card :: last.Some? && id <= last.value
  }

  /** The latest decided change of the card took effect already, but another one came or comes after it. */
  ghost predicate Overtaken(w: World, card: string) {
    exists id :: id in Applied(w.history) && IsLatest(w.decided, card, id) &&
                 (LastOn(w.history, card) != Some(id) || Undelivered(w, card) != {})
  }

  ghost predicate IsLatest(decided: map<Id, Change>, card: string, id: Id) {
    id in decided && decided[id].card == card &&
    forall other | other in decided && decided[other].card == card :: other <= id
  }

  function Undelivered(w: World, card: string): set<Id> {
    set id | id in w.decided && id in w.pending && w.decided[id].card == card
  }

  lemma {:induction false} Latest(decided: map<Id, Change>, card: string, id: Id, bound: nat) returns (latest: Id)
    requires id in decided && decided[id].card == card && forall other | other in decided :: other < bound
    ensures id <= latest && IsLatest(decided, card, latest)
    decreases bound - id
  {
    if next :| next in decided && decided[next].card == card && next > id {
      latest := Latest(decided, card, next, bound);
    } else {
      latest := id;
    }
  }

  /** The last operation on a card after the first `n` were finished: the latest of these that was still
      to be delivered, if there is one. */
  lemma {:induction false} LastAfter(w: World, operations: seq<Operation>, n: nat, card: string)
    returns (last: Option<nat>)
    requires Listed(operations, w.rows) && n <= |operations|
    ensures LastOn(AllFinished(w, operations, n).history, card) ==
            match last case None => LastOn(w.history, card) case Some(i) =>
              if i < n then Some(operations[i].id) else None
    ensures match last
            case None => forall j | 0 <= j < n :: !Changes(w, operations[j].id, card)
            case Some(i) => i < n && Changes(w, operations[i].id, card) &&
                            forall j | 0 <= j < n && Changes(w, operations[j].id, card) :: j <= i
  {
    if n == 0 {
      last := None;
    } else {
      last := LastAfter(w, operations, n - 1, card);
      NextOperation(w, operations, n - 1);
      if Changes(w, operations[n - 1].id, card) {
        last := Some(n - 1);
      }
    }
  }

  predicate Changes(w: World, id: Id, card: string) {
    id in w.pending && w.pending[id].card == card
  }

  lemma UndeliveredAt(w: World, operations: seq<Operation>, card: string, id: Id) returns (j: nat)
    requires Agree(w) && AllListed(operations, w) && id in Undelivered(w, card)
    ensures j < |operations| && operations[j].id == id && Changes(w, operations[j].id, card)
  {
    assert id in Earlier(operations, |operations|);
    j :| 0 <= j < |operations| && operations[j].id == id;
  }

  /** The last operation on a card after everything was finished. */
  lemma LastAfterAll(w: World, operations: seq<Operation>, card: string)
    requires Agree(w) && AllListed(operations, w)
    ensures var last := LastOn(AllFinished(w, operations, |operations|).history, card);
            if Undelivered(w, card) == {} then last == LastOn(w.history, card)
            else last.Some? && last.value in Undelivered(w, card) &&
                 forall id | id in Undelivered(w, card) :: id <= last.value
  {
    var last := LastAfter(w, operations, |operations|, card);
    forall id | id in Undelivered(w, card)
      ensures last.Some? && last.value < |operations| && id <= operations[last.value].id
    {
      var j := UndeliveredAt(w, operations, card, id);
    }
    if last.Some? {
      assert operations[last.value].id in w.rows && operations[last.value].id in w.decided;
      assert operations[last.value].id in Undelivered(w, card);
    }
  }

  /** After a complete restart a card is up to date exactly if it was not overtaken before. */
  lemma RestartOrder(w: World, operations: seq<Operation>, card: string)
    requires Agree(w) && AllListed(operations, w)
    ensures UpToDate(AllFinished(w, operations, |operations|), card) <==> !Overtaken(w, card)
  {
    AllFinishedIs(w, operations, |operations|);
    LastAfterAll(w, operations, card);
    OrderAfter(w, card, LastOn(AllFinished(w, operations, |operations|).history, card));
  }

  lemma OrderAfter(w: World, card: string, last: Option<Id>)
    requires Agree(w)
    requires if Undelivered(w, card) == {} then last == LastOn(w.history, card)
             else last.Some? && last.value in Undelivered(w, card) &&
                  forall id | id in Undelivered(w, card) :: id <= last.value
    ensures IsUpToDate(w.decided, card, last) <==> !Overtaken(w, card)
  {
    if Overtaken(w, card) {
      LastDecides(w.history, w.decided, card);
    } else {
      forall id | id in w.decided && w.decided[id].card == card ensures last.Some? && id <= last.value {
        var latest := Latest(w.decided, card, id, w.issued);
        LatestComesLast(w, card, latest);
      }
    }
  }

  lemma LatestComesLast(w: World, card: string, latest: Id)
    requires Agree(w) && !Overtaken(w, card) && IsLatest(w.decided, card, latest)
    ensures latest in Undelivered(w, card) || (Undelivered(w, card) == {} && LastOn(w.history, card) == Some(latest))
  {
    if latest !in w.pending {
      assert latest in Applied(w.history);
    }
  }

  // ---------------------------------------------------------------- two runs of single steps

  function UpTo(n: nat): (ids: set<Id>)
    ensures |ids| == n && forall id :: id in ids <==> 1 <= id <= n
  {
    if n == 0 then {} else UpTo(n - 1) + {n}
  }

  /** An operation whose commit was lost, and `n` later ones whose commit was served but not answered. */
  ghost predicate Behind(w: World, change: Change, n: nat) {
    && w.pending == map[0 := change] && w.completed == UpTo(n) && w.issued == n + 1
    && w.rows.Keys == w.decided.Keys == UpTo(n) + {0} && Loads(Result(w.history))
  }

  lemma ChangedSize(active: map<string, string>, change: Change)
    ensures change.Delete? || change.card in active ==> |Changed(active, change)| <= |active|
    ensures |Changed(active, change)| <= |active| + 1
    ensures change.Put? && change.card !in active ==> |Changed(active, change)| == |active| + 1
  {
    var changed := Changed(active, change);
    if change.Delete? {
      SubsetSize(changed.Keys, active.Keys);
    } else {
      assert changed.Keys == active.Keys + {change.card};
    }
  }

  function Added(w: World, change: Change): World {
    w.(pending := w.pending[w.issued := change], issued := w.issued + 1,
       rows := w.rows[w.issued := Prepared], decided := w.decided[w.issued := change])
  }

  lemma AddedByMoves(w: World, change: Change)
    requires HasRoom(|w.pending|, Result(w.history), change) && w.issued !in w.decided
    ensures Allowed(w, Prepare(change)) && Allowed(Moved(w, Prepare(change)), Decide({w.issued}))
    ensures Moved(Moved(w, Prepare(change)), Decide({w.issued})) == Added(w, change)
  {
    assert w.rows + NewRows({w.issued}) == w.rows[w.issued := Prepared];
    var pending := w.pending[w.issued := change];
    assert w.decided + Part(pending, {w.issued}) == w.decided[w.issued := change];
  }

  lemma NextAdded(run: Run, change: Change) returns (next: Run)
    requires Legal(run) && HasRoom(|State(run).pending|, Result(State(run).history), change)
    requires State(run).issued !in State(run).decided
    ensures Legal(next) && State(next) == Added(State(run), change)
  {
    AddedByMoves(State(run), change);
    next := Step(Step(run, Prepare(change)), Decide({State(run).issued}));
  }

  lemma BehindAgain(w: World, change: Change, n: nat)
    requires Behind(w, change, n) && change.Delete? && n < MAX_COMPLETED
    ensures Allowed(Added(w, change), Commit(n + 1))
    ensures Behind(Moved(Added(w, change), Commit(n + 1)), change, n + 1)
  {
    ChangedSize(Result(w.history), change);
    PendingAgain(change, n + 1);
    RowsAgain(w, n);
  }

  lemma PendingAgain(change: Change, id: Id)
    requires id > 0
    ensures map[0 := change][id := change][id] == change && map[0 := change][id := change] - {id} == map[0 := change]
  {
  }

  lemma RowsAgain(w: World, n: nat)
    requires w.rows.Keys == w.decided.Keys == UpTo(n) + {0}
    ensures UpTo(n) + {n + 1} == UpTo(n + 1)
    ensures w.rows.Keys + {n + 1} == w.decided.Keys + {n + 1} == UpTo(n + 1) + {0}
  {
  }

  lemma {:induction false} BehindRun(active: map<string, string>, change: Change, n: nat) returns (run: Run)
    requires change.Delete? && n <= MAX_COMPLETED && Loads(active)
    ensures Legal(run) && Behind(State(run), change, n)
  {
    if n == 0 {
      run := NextAdded(Begin(active), change);
      NoneBehind(active, change);
    } else {
      var earlier := BehindRun(active, change, n - 1);
      run := NextBehind(earlier, change, n - 1);
    }
  }

  lemma NoneBehind(active: map<string, string>, change: Change)
    requires Loads(active)
    ensures Behind(Added(State(Begin(active)), change), change, 0)
  {
  }

  lemma NextBehind(run: Run, change: Change, n: nat) returns (next: Run)
    requires Legal(run) && Behind(State(run), change, n) && change.Delete? && n < MAX_COMPLETED
    ensures Legal(next) && Behind(State(next), change, n + 1)
  {
    var added := NextAdded(run, change);
    BehindAgain(State(run), change, n);
    next := Step(added, Commit(n + 1));
  }

  /** A run after which both sides agree and the restart nevertheless cannot go on: the commit of one
      operation is lost, and ten thousand later ones are committed without an answer. */
  lemma BlockedRun(active: map<string, string>) returns (run: Run)
    requires Loads(active)
    ensures Legal(run) && Agree(State(run)) && Blocked(State(run))
  {
    run := BehindRun(active, Delete("card"), MAX_COMPLETED);
    RunAgrees(run);
    BehindReceipts(State(run), Delete("card"), MAX_COMPLETED);
  }

  lemma BehindReceipts(w: World, change: Change, n: nat)
    requires Behind(w, change, n)
    ensures 0 in w.rows && 0 in w.pending && |LaterReceipts(w, 0)| == n
  {
    assert LaterReceipts(w, 0) == UpTo(n);
  }

  lemma FinishedByMoves(w: World, id: Id)
    requires id in w.rows && id in w.pending && w.completed == {}
    requires Loads(Result(w.history)) && Loads(Result(Delivered(w, id).history))
    ensures Allowed(w, Commit(id)) && Allowed(Delivered(w, id), Mark(id))
    ensures Moved(Delivered(w, id), Mark(id)) == Noted(w, id) && Allowed(Noted(w, id), Acknowledge(id))
    ensures var acknowledged := Moved(Noted(w, id), Acknowledge(id));
            Allowed(acknowledged, Drop(id)) && Moved(acknowledged, Drop(id)) == Finished(w, id)
  {
    var acknowledged := Moved(Noted(w, id), Acknowledge(id));
    assert acknowledged.completed == {};
    assert acknowledged.rows - {id} == w.rows - {id};
  }

  lemma NextFinished(run: Run, id: Id) returns (next: Run)
    requires Legal(run) && id in State(run).rows && id in State(run).pending && State(run).completed == {}
    requires Loads(Result(State(run).history)) && Loads(Result(Delivered(State(run), id).history))
    ensures Legal(next) && State(next) == Finished(State(run), id)
  {
    FinishedByMoves(State(run), id);
    var committed := Step(run, Commit(id));
    assert Legal(committed) && State(committed) == Delivered(State(run), id);
    var noted := Step(committed, Mark(id));
    assert Legal(noted) && State(noted) == Noted(State(run), id);
    var acknowledged := Step(noted, Acknowledge(id));
    assert Legal(acknowledged) && State(acknowledged) == Moved(Noted(State(run), id), Acknowledge(id));
    next := Step(acknowledged, Drop(id));
  }

  /** A run in which the commit of the first of two changes of a card is lost: the restart delivers it
      after the second one, so the card is settled with its outdated connection. */
  lemma OvertakenRun(active: map<string, string>, first: Change, second: Change) returns (run: Run)
    requires first.card == second.card && |active| < MAX_CONNECTIONS
    ensures Legal(run)
    ensures var w := State(run);
            && Settled(w) && w.decided == map[0 := first, 1 := second]
            && Result(w.history) == Changed(Changed(active, second), first)
            && !UpToDate(w, first.card)
  {
    var decided := TwoDecided(active, first, second);
    SameCardSize(active, first, second);
    var once := NextFinished(decided, 1);
    run := NextFinished(once, 0);
    RunAgrees(run);
    TwoFinished(State(decided), first, second);
  }

  /** A run to a Broker with too many connections: the commit of one creation is lost, a second one is
      completed, and the restart commits the first one. */
  lemma CrowdedRun(active: map<string, string>, first: Change, second: Change) returns (run: Run)
    requires |active| == MAX_CONNECTIONS - 1 && first.Put? && second.Put? && first.card != second.card
    requires first.card !in active && second.card !in active
    ensures Legal(run) && Agree(State(run)) && Blocked(State(run)) && !Loads(Result(State(run).history))
  {
    var decided := TwoDecided(active, first, second);
    ChangedSize(active, second);
    ChangedSize(Changed(active, second), first);
    var once := NextFinished(decided, 1);
    run := Step(once, Commit(0));
    RunAgrees(run);
    assert Result(State(run).history) == Changed(Changed(active, second), first);
    assert 0 in State(run).rows && !Loads(Through(State(run), 0));
  }

  lemma SameCardSize(active: map<string, string>, first: Change, second: Change)
    requires first.card == second.card && |active| < MAX_CONNECTIONS
    ensures Loads(Changed(active, second)) && Loads(Changed(Changed(active, second), first))
  {
    ChangedSize(active, second);
    ChangedSize(active, first);
    if second.Put? {
      ChangedSize(Changed(active, second), first);
    } else {
      ChangedSize(active - {first.card}, first);
    }
  }

  lemma TwoFinished(w: World, first: Change, second: Change)
    requires w.pending == w.decided == map[0 := first, 1 := second] && w.completed == {}
    requires w.rows == map[0 := Prepared, 1 := Prepared] && w.history.Start?
    requires first.card == second.card && Agree(Finished(Finished(w, 1), 0))
    ensures var v := Finished(Finished(w, 1), 0);
            && Settled(v) && v.decided == w.decided && !UpToDate(v, first.card)
            && Result(v.history) == Changed(Changed(w.history.active, second), first)
  {
    var v := Finished(Finished(w, 1), 0);
    assert v.history == After(After(w.history, 1, second), 0, first);
    assert Result(After(w.history, 1, second)) == Changed(w.history.active, second);
    assert v.rows == map[];
    NoRowsSettled(v);
    assert LastOn(v.history, first.card) == Some(0);
    assert 1 in v.decided;
  }

  lemma TwoDecided(active: map<string, string>, first: Change, second: Change) returns (run: Run)
    requires |active| < MAX_CONNECTIONS
    ensures Legal(run)
    ensures var w := State(run);
            && w.pending == w.decided == map[0 := first, 1 := second] && w.completed == {}
            && w.rows == map[0 := Prepared, 1 := Prepared] && w.history == Start(active)
  {
    var empty := Begin(active);
    var one := NextAdded(empty, first);
    OneAdded(active, first);
    run := NextAdded(one, second);
    TwoAdded(State(one), first, second);
  }

  lemma OneAdded(active: map<string, string>, first: Change)
    ensures var w := Added(State(Begin(active)), first);
            && w.pending == w.decided == map[0 := first] && w.completed == {} && w.issued == 1
            && w.rows == map[0 := Prepared] && w.history == Start(active)
  {
  }

  lemma TwoAdded(w: World, first: Change, second: Change)
    requires w.pending == w.decided == map[0 := first] && w.issued == 1 && w.rows == map[0 := Prepared]
    ensures var v := Added(w, second);
            v.pending == v.decided == map[0 := first, 1 := second] && v.rows == map[0 := Prepared, 1 := Prepared]
  {
  }

  // ---------------------------------------------------------------- the operations of one mutation

  function Numbered(first: nat, changes: seq<Change>): map<Id, Change> {
    map id | id in Batch(first, |changes|) :: changes[id - first]
  }

  function Batch(first: nat, count: nat): (ids: set<Id>)
    ensures forall id :: id in ids <==> first <= id < first + count
  {
    if count == 0 then {} else Batch(first, count - 1) + {first + (count - 1)}
  }

  function Operations(first: nat, count: nat): (operations: seq<Operation>)
    ensures |operations| == count && forall i | 0 <= i < count :: operations[i] == Operation(first + i, Prepared)
  {
    seq(count, i requires 0 <= i < count => Operation(first + i, Prepared))
  }

  /** The first `n` changes of a mutation can be prepared; validation refuses those at the given indices. */
  predicate Admissible(pending: nat, active: map<string, string>, changes: seq<Change>, n: nat, refused: set<nat>)
    requires n <= |changes|
  {
    forall i | 0 <= i < n :: i !in refused && HasRoom(pending + i, active, changes[i])
  }

  function AllPrepared(w: World, changes: seq<Change>): World {
    w.(pending := w.pending + Numbered(w.issued, changes), issued := w.issued + |changes|)
  }

  lemma NextPrepared(w: World, changes: seq<Change>, i: nat)
    requires i < |changes|
    ensures Moved(AllPrepared(w, changes[..i]), Prepare(changes[i])) == AllPrepared(w, changes[..i + 1])
  {
    NextNumber(w.issued, changes, i);
  }

  /** The transaction decides the changes, if nothing fails on the way. */
  predicate Accepted(w: World, changes: seq<Change>, refused: set<nat>, written: bool) {
    written && Admissible(|w.pending|, Result(w.history), changes, |changes|, refused)
  }

  /** A mutation that decided nothing; without faults it leaves nothing behind. */
  ghost predicate Declines(before: World, now: World, changes: seq<Change>, refused: set<nat>, written: bool,
                           faults: Faults) {
    && now.decided == before.decided && now.rows == before.rows && now.completed == before.completed
    && now.history == before.history && now.issued >= before.issued && Submap(before.pending, now.pending)
    && (faults == NO_FAULTS ==> now.pending == before.pending && !Accepted(before, changes, refused, written))
  }

  lemma DeclinesAnyway(before: World, now: World, changes: seq<Change>, refused: set<nat>, written: bool,
                       faults: Faults)
    requires Declines(before, now, changes, refused, true, faults)
    ensures Declines(before, now, changes, refused, written, faults)
  {
  }

  /** The first `n` changes are prepared; without faults all of these were admissible. */
  ghost predicate Preparing(before: World, now: World, changes: seq<Change>, n: nat, refused: set<nat>, faults: Faults)
    requires n <= |changes|
  {
    && now == AllPrepared(before, changes[..n]) && |now.pending| == |before.pending| + n
    && (faults == NO_FAULTS ==> Admissible(|before.pending|, Result(before.history), changes, n, refused))
  }

  /** Change `n` was refused or lost; without faults because it is not admissible. */
  ghost predicate GivesUp(before: World, now: World, changes: seq<Change>, n: nat, refused: set<nat>, faults: Faults)
    requires n < |changes|
  {
    && now.decided == before.decided && now.rows == before.rows && now.completed == before.completed
    && now.history == before.history && now.issued == before.issued + n + 1
    && BackTo(before.pending, now.pending, before.issued, n + 1)
    && (faults == NO_FAULTS ==>
          && BackTo(before.pending, now.pending, before.issued, n)
          && (n > 0 ==> Loads(Result(before.history)))
          && !Admissible(|before.pending|, Result(before.history), changes, |changes|, refused))
  }

  lemma NothingPrepared(w: World, changes: seq<Change>, refused: set<nat>, faults: Faults)
    ensures Preparing(w, w, changes, 0, refused, faults)
  {
    assert w.pending + Numbered(w.issued, []) == w.pending;
  }

  lemma OnePrepared(before: World, now: World, changes: seq<Change>, i: nat, refused: set<nat>, faults: Faults)
    requires i < |changes| && Agree(before) && Preparing(before, now, changes, i, refused, faults)
    requires faults == NO_FAULTS ==> i !in refused && HasRoom(|now.pending|, Result(now.history), changes[i])
    ensures Preparing(before, Moved(now, Prepare(changes[i])), changes, i + 1, refused, faults)
  {
    NextPrepared(before, changes, i);
    NewlyPending(before, changes, i);
    AdmissibleNext(|before.pending|, Result(before.history), changes, i, refused, faults);
  }

  lemma NewlyPending(w: World, changes: seq<Change>, i: nat)
    requires i < |changes| && Agree(w)
    ensures var v := AllPrepared(w, changes[..i]);
            |Moved(v, Prepare(changes[i])).pending| == |v.pending| + 1
  {
    assert w.issued + i !in AllPrepared(w, changes[..i]).pending;
  }

  lemma AdmissibleNext(pending: nat, active: map<string, string>, changes: seq<Change>, i: nat, refused: set<nat>,
                       faults: Faults)
    requires i < |changes|
    requires faults == NO_FAULTS ==>
               Admissible(pending, active, changes, i, refused) &&
               i !in refused && HasRoom(pending + i, active, changes[i])
    ensures faults == NO_FAULTS ==> Admissible(pending, active, changes, i + 1, refused)
  {
  }

  /** Dropping `count` operations from `first` on restores what was pending. */
  ghost predicate BackTo(before: map<Id, Change>, now: map<Id, Change>, first: nat, count: nat) {
    now - Batch(first, count) == before
  }

  lemma TakenBack(w: World, changes: seq<Change>, i: nat)
    requires i < |changes| && Agree(w)
    ensures var pending := AllPrepared(w, changes[..i]).pending;
            && BackTo(w.pending, pending, w.issued, i) && BackTo(w.pending, pending, w.issued, i + 1)
            && BackTo(w.pending, pending[w.issued + i := changes[i]], w.issued, i + 1)
  {
  }

  /** Of `count` operations from `first` on, the first `n` were dropped as far as the calls succeeded, and
      all of these when they were `sure` to. */
  ghost predicate Dropped(before: map<Id, Change>, now: map<Id, Change>, first: nat, n: nat, count: nat, sure: bool) {
    && now - Batch(first, count) == before - Batch(first, count)
    && (sure ==> now == before - Batch(first, n))
  }

  lemma DroppedNone(pending: map<Id, Change>, first: nat, count: nat, sure: bool)
    ensures Dropped(pending, pending, first, 0, count, sure)
  {
  }

  lemma DroppedNext(before: map<Id, Change>, now: map<Id, Change>, next: map<Id, Change>, first: nat, i: nat,
                    count: nat, sure: bool)
    requires i < count && Dropped(before, now, first, i, count, sure)
    requires next == now - {first + i} || (!sure && next == now)
    ensures Dropped(before, next, first, i + 1, count, sure)
    ensures !sure ==> Dropped(before, next, first, count, count, sure)
  {
    Without(next, now, {first + i}, Batch(first, count));
  }

  lemma AllArePrepared(before: World, now: World, changes: seq<Change>, refused: set<nat>, faults: Faults)
    requires Preparing(before, now, changes, |changes|, refused, faults)
    ensures now == AllPrepared(before, changes)
    ensures faults == NO_FAULTS ==> Accepted(before, changes, refused, true)
    ensures faults == NO_FAULTS ==> changes == [] || Loads(Result(before.history))
  {
    assert changes[..|changes|] == changes;
  }

  lemma AllBack(w: World, changes: seq<Change>)
    requires Agree(w)
    ensures BackTo(w.pending, AllPrepared(w, changes).pending, w.issued, |changes|)
  {
  }

  lemma Withdrawn(before: World, now: World, last: World, changes: seq<Change>, refused: set<nat>, written: bool,
                  sure: bool, faults: Faults)
    requires Agree(before) && now == AllPrepared(before, changes) && last.(pending := now.pending) == now
    requires Dropped(now.pending, last.pending, before.issued, |changes|, |changes|, sure)
    requires faults == NO_FAULTS ==> (sure || changes == []) && !written
    ensures Declines(before, last, changes, refused, written, faults)
  {
    var ids := Batch(before.issued, |changes|);
    AllBack(before, changes);
    forall id | id in before.pending ensures id in last.pending && last.pending[id] == before.pending[id] {
      assert id in now.pending - ids && id in last.pending - ids;
    }
  }

  lemma NotAdmissible(pending: nat, active: map<string, string>, changes: seq<Change>, i: nat, refused: set<nat>)
    requires i < |changes| && !(i !in refused && HasRoom(pending + i, active, changes[i]))
    ensures !Admissible(pending, active, changes, |changes|, refused)
  {
  }

  lemma AdmissibleLoads(pending: nat, active: map<string, string>, changes: seq<Change>, n: nat, refused: set<nat>)
    requires n <= |changes| && Admissible(pending, active, changes, n, refused)
    ensures n > 0 ==> Loads(active)
  {
    assert n > 0 ==> HasRoom(pending + 0, active, changes[0]);
  }

  lemma OneLost(before: World, now: World, next: World, changes: seq<Change>, i: nat, refused: set<nat>,
                faults: Faults)
    requires i < |changes| && Agree(before) && Preparing(before, now, changes, i, refused, faults)
    requires next == Moved(now, Refuse) || (faults != NO_FAULTS && next == Moved(now, Prepare(changes[i])))
    requires faults == NO_FAULTS ==> !(i !in refused && HasRoom(|now.pending|, Result(now.history), changes[i]))
    ensures GivesUp(before, next, changes, i, refused, faults)
  {
    TakenBack(before, changes, i);
    LostBack(before, now, next, changes, i);
    if faults == NO_FAULTS {
      AdmissibleLoads(|before.pending|, Result(before.history), changes, i, refused);
      NotAdmissible(|before.pending|, Result(before.history), changes, i, refused);
    }
  }

  lemma LostBack(before: World, now: World, next: World, changes: seq<Change>, i: nat)
    requires i < |changes| && now == AllPrepared(before, changes[..i])
    requires next == Moved(now, Refuse) || next == Moved(now, Prepare(changes[i]))
    requires BackTo(before.pending, now.pending, before.issued, i + 1)
    requires BackTo(before.pending, now.pending[before.issued + i := changes[i]], before.issued, i + 1)
    ensures BackTo(before.pending, next.pending, before.issued, i + 1)
    ensures next.decided == before.decided && next.rows == before.rows && next.completed == before.completed
    ensures next.history == before.history && next.issued == before.issued + i + 1
    ensures next == Moved(now, Refuse) ==> next.pending == now.pending
  {
  }

  lemma NothingLeft(before: World, now: World, last: World, changes: seq<Change>, i: nat, refused: set<nat>,
                    sure: bool, faults: Faults)
    requires i < |changes| && GivesUp(before, now, changes, i, refused, faults)
    requires last.(pending := now.pending) == now
    requires Dropped(now.pending, last.pending, before.issued, i, i, sure)
    requires faults == NO_FAULTS ==> sure || i == 0
    ensures Declines(before, last, changes, refused, true, faults)
  {
    var first := before.issued;
    forall id | id in before.pending ensures id in last.pending && last.pending[id] == before.pending[id] {
      assert BackTo(before.pending, now.pending, first, i + 1);
      assert id in now.pending - Batch(first, i + 1) && now.pending[id] == before.pending[id];
      assert id in last.pending - Batch(first, i);
    }
  }

  /** The state once the transaction committed. */
  function AllAdded(w: World, changes: seq<Change>): World {
    AllPrepared(w, changes).(decided := w.decided + Numbered(w.issued, changes),
                             rows := w.rows + NewRows(Batch(w.issued, |changes|)))
  }

  lemma AllAddedAgrees(w: World, changes: seq<Change>)
    requires Agree(w) && Agree(AllPrepared(w, changes))
    ensures Agree(AllAdded(w, changes))
  {
    AllAddedByMove(w, changes);
    MoveKeeps(AllPrepared(w, changes), Decide(Batch(w.issued, |changes|)));
  }

  lemma AllAddedByMove(w: World, changes: seq<Change>)
    requires Agree(w)
    ensures var prepared, ids := AllPrepared(w, changes), Batch(w.issued, |changes|);
            Allowed(prepared, Decide(ids)) && Moved(prepared, Decide(ids)) == AllAdded(w, changes)
  {
    assert Part(w.pending + Numbered(w.issued, changes), Batch(w.issued, |changes|)) == Numbered(w.issued, changes);
  }

  lemma EarlierAre(first: nat, count: nat, n: nat)
    requires n <= count
    ensures Earlier(Operations(first, count), n) == Batch(first, n)
  {
    forall id | id in Batch(first, n) ensures id in Earlier(Operations(first, count), n) {
      assert Operations(first, count)[id - first].id == id;
    }
  }

  /** Finishing the operations of a mutation leaves its changes in effect, in order, and nothing else. */
  lemma MutationFinished(w: World, changes: seq<Change>)
    requires Agree(w)
    ensures var n, v := |changes|, AllFinished(AllAdded(w, changes), Operations(w.issued, |changes|), |changes|);
            && v.pending == w.pending && v.completed == w.completed && v.rows == w.rows
            && Result(v.history) == AllChanged(Result(w.history), changes)
  {
    var added, n := AllAdded(w, changes), |changes|;
    LeftAfter(added, w.issued, n, n);
    AddedThenRemoved(w, changes);
    AddedIsKnown(w.pending, w.issued, changes);
    HistoryAfter(added, w.issued, changes, n);
    EffectsInOrder(w.history, w.issued, changes, n);
    assert changes[..n] == changes;
  }

  lemma AddedThenRemoved(w: World, changes: seq<Change>)
    requires Agree(w)
    ensures var added, ids := AllAdded(w, changes), Batch(w.issued, |changes|);
            added.pending - ids == w.pending && added.rows - ids == w.rows && w.completed - ids == w.completed
  {
    AppliedIsDecided(w.history, w.decided);
    AddedAndRemoved(w.pending, Numbered(w.issued, changes));
    AddedAndRemoved(w.rows, NewRows(Batch(w.issued, |changes|)));
  }

  lemma AddedAndRemoved<V>(few: map<Id, V>, more: map<Id, V>)
    requires few.Keys !! more.Keys
    ensures few + more - more.Keys == few
  {
  }

  function Extended(history: History, first: nat, changes: seq<Change>, n: nat): History
    requires n <= |changes|
  {
    if n == 0 then history
    else After(Extended(history, first, changes, n - 1), first + (n - 1), changes[n - 1])
  }

  lemma {:induction false} EffectsInOrder(history: History, first: nat, changes: seq<Change>, n: nat)
    requires n <= |changes|
    ensures Result(Extended(history, first, changes, n)) == AllChanged(Result(history), changes[..n])
  {
    if n > 0 {
      EffectsInOrder(history, first, changes, n - 1);
      assert changes[..n][..n - 1] == changes[..n - 1];
    }
  }

  ghost predicate Knows(pending: map<Id, Change>, first: nat, changes: seq<Change>) {
    forall id: Id | first <= id < first + |changes| :: id in pending && pending[id] == changes[id - first]
  }

  lemma AddedIsKnown(pending: map<Id, Change>, first: nat, changes: seq<Change>)
    ensures Knows(pending + Numbered(first, changes), first, changes)
  {
  }

  lemma {:induction false} HistoryAfter(w: World, first: nat, changes: seq<Change>, n: nat)
    requires n <= |changes| && Knows(w.pending, first, changes)
    ensures AllFinished(w, Operations(first, |changes|), n).history == Extended(w.history, first, changes, n)
  {
    if n > 0 {
      HistoryAfter(w, first, changes, n - 1);
      HistoryNext(w, first, changes, n - 1, Operations(first, |changes|)[n - 1].id);
    }
  }

  lemma HistoryNext(w: World, first: nat, changes: seq<Change>, n: nat, id: Id)
    requires n < |changes| && id == first + n && Knows(w.pending, first, changes)
    ensures var v := AllFinished(w, Operations(first, |changes|), n);
            Finished(v, id).history == After(v.history, id, changes[n])
  {
    LeftAfter(w, first, |changes|, n);
    assert id in w.pending && w.pending[id] == changes[n];
    EffectOfNext(w, AllFinished(w, Operations(first, |changes|), n), first, n, id);
  }

  lemma LeftAfter(w: World, first: nat, count: nat, n: nat)
    requires n <= count
    ensures var v, ids := AllFinished(w, Operations(first, count), n), Batch(first, n);
            v.pending == w.pending - ids && v.completed == w.completed - ids && v.rows == w.rows - ids
  {
    AllFinishedIs(w, Operations(first, count), n);
    EarlierAre(first, count, n);
  }

  lemma EffectOfNext(w: World, v: World, first: nat, n: nat, id: Id)
    requires id == first + n && id in w.pending && v.pending == w.pending - Batch(first, n)
    ensures Finished(v, id).history == After(v.history, id, w.pending[id])
  {
  }

  /** The receipts at the turn of each of its operations are those from before. */
  lemma MutationTurns(w: World, first: nat, count: nat, n: nat)
    requires n <= count && forall id | id in w.completed :: id < first
    ensures AllFinished(w, Operations(first, count), n).completed == w.completed
  {
    AllFinishedIs(w, Operations(first, count), n);
    EarlierAre(first, count, n);
  }

  lemma MutationListed(first: nat, count: nat, rows: map<Id, Phase>)
    ensures Listed(Operations(first, count), rows + NewRows(Batch(first, count)))
  {
  }

  lemma NextNumber(first: nat, changes: seq<Change>, i: nat)
    requires i < |changes|
    ensures Numbered(first, changes[..i + 1]) == Numbered(first, changes[..i])[first + i := changes[i]]
  {
  }

  // ---------------------------------------------------------------- the Web process

  /** A restart keeps what was not decided, and has nothing to do without rows. */
  ghost predicate Restarted(before: World, now: World, out: Outcome) {
    && now.decided == before.decided && now.issued == before.issued
    && Origin(now.history) == Origin(before.history)
    && now.pending - before.decided.Keys == before.pending - before.decided.Keys
    && (out == Done && before.rows == map[] ==> now == before)
  }

  lemma RestartDone(before: World, now: World, operations: seq<Operation>, n: nat, out: Outcome, faults: Faults)
    requires Agree(before) && Agree(now) && AllListed(operations, before)
    requires n <= |operations| && (out == Done <==> n == |operations|)
    requires Reached(before, now, operations, n, out, faults)
    ensures Restarted(before, now, out)
    ensures out == Done ==> now.rows == map[] && Settled(now)
    ensures out == Done ==> forall card :: UpToDate(now, card) <==> !Overtaken(before, card)
  {
    StoppedAt(before, now, operations, n);
    Without(now.pending, before.pending, before.rows.Keys, before.decided.Keys);
    if out == Done {
      AllFinishedIs(before, operations, n);
      NoRowsSettled(now);
      assert operations == [] || operations[0].id in before.rows;
      forall card ensures UpToDate(now, card) <==> !Overtaken(before, card) {
        RestartOrder(before, operations, card);
      }
    }
  }

  lemma RestartBlocked(before: World, now: World, operations: seq<Operation>, n: nat, out: Outcome, faults: Faults)
    requires Agree(before) && Agree(now) && AllListed(operations, before)
    requires n <= |operations| && (out == Done <==> n == |operations|)
    requires Reached(before, now, operations, n, out, faults) && faults == NO_FAULTS
    ensures (out == Done <==> !Blocked(before)) && (out == Done <==> !Blocked(now))
    ensures !Loads(Result(before.history)) ==> now == before
  {
    BlockedWhenFails(before, operations);
    forall i | 0 <= i < n ensures !FailsAt(before, operations, i) {
      NoneFailAt(before, operations, n, i);
    }
    if n > 0 {
      NoneFailAt(before, operations, n, 0);
    }
    if out == Done {
      AllFinishedIs(before, operations, n);
      NoRowsSettled(now);
    } else {
      ReachedFails(before, now, operations, n, out);
      assert FailsAt(before, operations, n);
      TurnOf(before, operations, n);
      HaltedBlocks(AllFinished(before, operations, n), now, operations[n].id);
    }
  }

  lemma HaltedBlocks(turn: World, now: World, id: Id)
    requires id in turn.rows && Fails(turn, id) && now == Halted(turn, id)
    requires id in turn.pending ==> turn.completed == LaterReceipts(turn, id)
    ensures Blocked(now)
  {
    assert id in now.rows;
    if !Loads(Result(now.history)) {
      assert !Loads(Through(now, 0));
    } else {
      assert ReceiptsBlock(now);
    }
  }

  lemma EarlierOfMore(operations: seq<Operation>, operation: Operation)
    ensures Earlier(operations + [operation], |operations| + 1) == Earlier(operations, |operations|) + {operation.id}
  {
    var longer := operations + [operation];
    forall id | id in Earlier(operations, |operations|) + {operation.id} ensures id in Earlier(longer, |longer|) {
      if id != operation.id {
        var j :| 0 <= j < |operations| && operations[j].id == id;
        assert longer[j].id == id;
      } else {
        assert longer[|operations|].id == id;
      }
    }
  }

  lemma NewNumber(w: World, change: Change)
    requires Agree(w)
    ensures Agree(Moved(w, Refuse)) && w.issued !in w.pending && w.issued !in w.completed
    ensures HasRoom(|w.pending|, Result(w.history), change) ==> Agree(Moved(w, Prepare(change)))
  {
    AppliedIsDecided(w.history, w.decided);
    MoveKeeps(w, Refuse);
    if HasRoom(|w.pending|, Result(w.history), change) {
      MoveKeeps(w, Prepare(change));
    }
  }

  lemma CommitOnce(w: World, id: Id)
    requires Agree(w) && id in w.rows && w.rows[id].Prepared?
    ensures id in w.pending <==> id !in w.completed
    ensures id in w.completed ==> Delivered(w, id) == w
    ensures id in w.pending && !Refused(w, id) ==> Agree(Delivered(w, id))
  {
    if id in w.pending && !Refused(w, id) {
      MoveKeeps(w, Commit(id));
    }
  }

  lemma AcknowledgeKeeps(w: World, id: Id)
    requires Agree(w) && id in w.rows && w.rows[id].Committed?
    ensures id !in w.pending && Agree(Moved(w, Acknowledge(id)))
  {
  }

  lemma NotDecided(w: World, id: Id)
    requires Agree(w) && id !in w.decided
    ensures id !in w.completed && Agree(Moved(w, Abort(id)))
    ensures id !in w.pending ==> Moved(w, Abort(id)) == w
  {
    AppliedIsDecided(w.history, w.decided);
  }

  class Manager {
    const broker: Broker
    var rows: map<Id, Phase>
    var issued: nat
    ghost var decided: map<Id, Change>

    ghost function Now(): World reads this, broker {
      World(broker.history, broker.pending, broker.completed, rows, decided, issued)
    }

    ghost predicate Valid() reads this, broker {
      broker.Valid() && Agree(Now())
    }

    constructor (broker: Broker)
      requires broker.Valid() && broker.pending == map[] && broker.completed == {} && broker.history.Start?
      ensures Valid() && this.broker == broker && rows == map[] && decided == map[] && issued == 0
    {
      this.broker, rows, issued, decided := broker, map[], 0, map[];
    }

    /** What is left of a call that the Broker served with `ok`. */
    method Reply(ok: bool, faults: Faults) returns (out: Outcome)
      ensures out == Done ==> ok
      ensures out == Crashed ==> faults.crashes
      ensures ok && !faults.crashes && !faults.link ==> out == Done
    {
      var dies, lost := *, *;
      out := if faults.crashes && dies then Crashed else if !ok || (faults.link && lost) then Failed else Done;
    }

    /** What the process meets on the way: whether a call arrives, and whether a store can be written. */
    method Luck(faults: Faults) returns (arrives: bool, stored: bool)
      ensures !faults.link ==> arrives
      ensures !faults.broker ==> stored
    {
      arrives, stored := *, *;
      arrives, stored := arrives || !faults.link, stored || !faults.broker;
    }

    method TryPrepare(change: Change, valid: bool, faults: Faults) returns (ok: bool)
      requires broker.Valid() && issued !in broker.pending && issued !in broker.completed
      modifies broker`pending
      ensures broker.Valid()
      ensures broker.pending == if ok then old(broker.pending)[issued := change] else old(broker.pending)
      ensures ok ==> valid && HasRoom(|old(broker.pending)|, broker.active, change)
      ensures faults == NO_FAULTS && !ok ==> !(valid && HasRoom(|old(broker.pending)|, broker.active, change))
    {
      var arrives, stored := Luck(faults);
      ok := false;
      if arrives {
        ok := broker.Prepare(issued, change, valid, stored);
      }
    }

    /** `taken` says whether the Broker holds the change now; the answer may be lost. */
    method RemotePrepare(change: Change, valid: bool, faults: Faults) returns (out: Outcome, ghost taken: bool)
      requires Valid()
      modifies broker`pending, this`issued
      ensures Valid() && Now() == Moved(old(Now()), if taken then Move.Prepare(change) else Refuse)
      ensures (out == Done ==> taken) && (out == Crashed ==> faults.crashes)
      ensures faults == NO_FAULTS ==> (out == Done <==> taken)
      ensures faults == NO_FAULTS ==> (taken <==> valid && HasRoom(|old(broker.pending)|, broker.active, change))
    {
      ghost var before := Now();
      NewNumber(before, change);
      var ok := TryPrepare(change, valid, faults);
      issued := issued + 1;
      taken := ok;
      assert Now() == Moved(before, if ok then Move.Prepare(change) else Refuse);
      out := Reply(ok, faults);
    }

    method TryAbort(id: Id, faults: Faults) returns (ok: bool)
      requires broker.Valid() && id !in broker.completed
      modifies broker`pending
      ensures broker.Valid()
      ensures broker.pending == if ok then old(broker.pending) - {id} else old(broker.pending)
      ensures faults == NO_FAULTS && Loads(broker.active) && !ok ==> id !in broker.pending
    {
      var arrives, stored := Luck(faults);
      ok := false;
      if arrives {
        ok := broker.Abort(id, stored);
      }
    }

    /** Only ever asked about operations that were not decided. */
    method RemoteAbort(id: Id, faults: Faults) returns (out: Outcome)
      requires Valid() && id !in decided
      modifies broker`pending
      ensures Valid()
      ensures broker.pending == old(broker.pending) - {id} || broker.pending == old(broker.pending)
      ensures faults == NO_FAULTS && Loads(broker.active) ==> broker.pending == old(broker.pending) - {id}
      ensures out == Crashed ==> faults.crashes
    {
      ghost var before := Now();
      NotDecided(before, id);
      var ok := TryAbort(id, faults);
      assert Now() == if ok then Moved(before, Move.Abort(id)) else before;
      out := Reply(ok, faults);
    }

    method TryCommit(id: Id, faults: Faults) returns (ok: bool)
      requires broker.Valid() && (id in broker.pending <==> id !in broker.completed)
      modifies broker
      ensures broker.Valid()
      ensures if ok && id in old(broker.pending) then
                broker.pending == old(broker.pending) - {id} && broker.completed == old(broker.completed) + {id} &&
                broker.history == After(old(broker.history), id, old(broker.pending)[id])
              else unchanged(broker)
      ensures ok ==> Loads(old(broker.active)) &&
                     (id in old(broker.pending) ==> |old(broker.completed)| < MAX_COMPLETED)
      ensures faults == NO_FAULTS && !ok ==>
                !Loads(old(broker.active)) || (id in old(broker.pending) && |old(broker.completed)| >= MAX_COMPLETED)
    {
      var arrives, stored := Luck(faults);
      ok := false;
      if arrives {
        ok := broker.Commit(id, stored);
      }
    }

    /** Only ever asked about a row in its first phase, so the Broker knows the operation. */
    method RemoteCommit(id: Id, faults: Faults) returns (out: Outcome)
      requires Valid() && id in rows && rows[id].Prepared?
      modifies broker
      ensures Valid() && (Now() == old(Now()) || Now() == Delivered(old(Now()), id))
      ensures out == Crashed ==> faults.crashes
      ensures out == Done ==> Now() == Delivered(old(Now()), id)
      ensures faults == NO_FAULTS ==> (out == Done <==> !Refused(old(Now()), id))
      ensures faults == NO_FAULTS && out != Done ==> Now() == old(Now())
    {
      ghost var before := Now();
      CommitOnce(before, id);
      var ok := TryCommit(id, faults);
      assert Now() == if ok then Delivered(before, id) else before;
      out := Reply(ok, faults);
    }

    method TryAcknowledge(id: Id, faults: Faults) returns (ok: bool)
      requires broker.Valid() && id !in broker.pending
      modifies broker`completed
      ensures broker.Valid()
      ensures broker.completed == if ok then old(broker.completed) - {id} else old(broker.completed)
      ensures ok ==> Loads(broker.active)
      ensures faults == NO_FAULTS && !ok ==> !Loads(broker.active)
    {
      var arrives, stored := Luck(faults);
      ok := false;
      if arrives {
        ok := broker.Acknowledge(id, stored);
      }
    }

    method RemoteAcknowledge(id: Id, faults: Faults) returns (out: Outcome)
      requires Valid() && id in rows && rows[id].Committed?
      modifies broker`completed
      ensures Valid()
      ensures broker.completed == old(broker.completed) || broker.completed == old(broker.completed) - {id}
      ensures out == Crashed ==> faults.crashes
      ensures out == Done ==> broker.completed == old(broker.completed) - {id}
      ensures faults == NO_FAULTS ==> (out == Done <==> Loads(broker.active))
      ensures faults == NO_FAULTS && out != Done ==> broker.completed == old(broker.completed)
    {
      ghost var before := Now();
      AcknowledgeKeeps(before, id);
      var ok := TryAcknowledge(id, faults);
      assert Now() == if ok then Moved(before, Move.Acknowledge(id)) else before;
      out := Reply(ok, faults);
    }

    /** A statement on the row of an operation; its outcome may get lost. */
    method Mark(id: Id, faults: Faults) returns (out: Outcome)
      requires Valid() && id in rows && id !in broker.pending
      modifies this`rows
      ensures Valid() && (rows == old(rows) || rows == old(rows)[id := Committed])
      ensures out == Crashed ==> faults.crashes
      ensures out == Done ==> rows == old(rows)[id := Committed]
      ensures faults == NO_FAULTS ==> out == Done
    {
      var runs, lost, dies := *, *, *;
      if faults.store && !runs {
        return Failed;
      }
      MoveKeeps(Now(), Move.Mark(id));
      rows := rows[id := Committed];
      assert Now() == Moved(old(Now()), Move.Mark(id));
      return if faults.crashes && dies then Crashed else if faults.store && lost then Failed else Done;
    }

    method Drop(id: Id, faults: Faults) returns (out: Outcome)
      requires Valid() && id in rows && rows[id].Committed? && id !in broker.completed
      modifies this`rows
      ensures Valid() && (rows == old(rows) || rows == old(rows) - {id})
      ensures out == Crashed ==> faults.crashes
      ensures out == Done ==> rows == old(rows) - {id}
      ensures faults == NO_FAULTS ==> out == Done
    {
      var runs, lost, dies := *, *, *;
      if faults.store && !runs {
        return Failed;
      }
      MoveKeeps(Now(), Move.Drop(id));
      rows := rows - {id};
      assert Now() == Moved(old(Now()), Move.Drop(id));
      return if faults.crashes && dies then Crashed else if faults.store && lost then Failed else Done;
    }

    method CommitAndMark(id: Id, faults: Faults) returns (out: Outcome)
      requires Valid() && id in rows && rows[id].Prepared?
      modifies this`rows, broker
      ensures Valid() && KeepsOthers(old(Now()), Now(), id)
      ensures out == Crashed ==> faults.crashes
      ensures out == Done ==> Now() == Noted(old(Now()), id)
      ensures faults == NO_FAULTS ==> (out == Done <==> !Refused(old(Now()), id))
      ensures faults == NO_FAULTS && out != Done ==> Now() == old(Now())
    {
      ghost var before := Now();
      out := RemoteCommit(id, faults);
      ghost var middle := Now();
      if out == Done {
        out := Mark(id, faults);
      }
      HalfTaken(before, middle, Now(), id);
    }

    method AcknowledgeAndDrop(id: Id, faults: Faults) returns (out: Outcome)
      requires Valid() && id in rows && rows[id].Committed?
      modifies this`rows, broker`completed
      ensures Valid() && (rows == old(rows) || rows == old(rows) - {id})
      ensures out == Crashed ==> faults.crashes
      ensures out == Done ==> rows == old(rows) - {id} && broker.completed == old(broker.completed) - {id}
      ensures faults == NO_FAULTS ==> (out == Done <==> Loads(broker.active))
      ensures faults == NO_FAULTS && out != Done ==> rows == old(rows) && broker.completed == old(broker.completed)
    {
      out := RemoteAcknowledge(id, faults);
      if out == Done {
        out := Drop(id, faults);
      }
    }

    /** The turn of one operation: commit it unless that is already noted, note it, acknowledge, forget. */
    method CompleteOne(operation: Operation, faults: Faults) returns (out: Outcome)
      requires Valid() && operation.id in rows && rows[operation.id] == operation.phase
      modifies this`rows, broker
      ensures Valid() && Turned(old(Now()), Now(), operation.id, out, faults)
    {
      ghost var before := Now();
      if operation.phase != Committed {
        out := CommitAndMark(operation.id, faults);
        if out != Done {
          return;
        }
      }
      ghost var noted := Now();
      out := AcknowledgeAndDrop(operation.id, faults);
      TurnTaken(before, noted, Now(), operation, out);
      if faults == NO_FAULTS {
        TurnFails(before, noted, Now(), operation, out);
      }
    }

    /** Goes through the operations in order and stops at the first one that fails. */
    method Complete(operations: seq<Operation>, faults: Faults) returns (out: Outcome, ghost n: nat)
      requires Valid() && Listed(operations, rows)
      modifies this`rows, broker
      ensures Valid() && n <= |operations| && (out == Done <==> n == |operations|)
      ensures Reached(old(Now()), Now(), operations, n, out, faults)
    {
      ghost var before := Now();
      ReachedFirst(before, operations, faults);
      out, n := Done, 0;
      for i := 0 to |operations|
        invariant Valid() && out == Done && n == i
        invariant Reached(before, Now(), operations, i, Done, faults)
      {
        out := CompleteNext(before, operations, i, faults);
        if out != Done {
          return;
        }
        n := n + 1;
      }
    }

    method CompleteNext(ghost before: World, operations: seq<Operation>, i: nat, faults: Faults)
      returns (out: Outcome)
      requires Valid() && i < |operations| && Listed(operations, before.rows)
      requires Reached(before, Now(), operations, i, Done, faults)
      modifies this`rows, broker
      ensures Valid()
      ensures out == Done ==> Reached(before, Now(), operations, i + 1, Done, faults)
      ensures out != Done ==> Reached(before, Now(), operations, i, out, faults)
    {
      ghost var now := Now();
      NextOperation(before, operations, i);
      out := CompleteOne(operations[i], faults);
      if out == Done {
        ReachedNext(before, now, Now(), operations, i, faults);
      } else {
        ReachedLast(before, now, Now(), operations, i, out, faults);
      }
    }

    /** Tells the Broker to drop prepared changes; failures are ignored. */
    method AbortAll(first: nat, count: nat, faults: Faults) returns (out: Outcome)
      requires Valid() && forall id | id in decided :: id < first
      modifies broker`pending
      ensures Valid() && out != Failed && (out == Crashed ==> faults.crashes)
      ensures Dropped(old(broker.pending), broker.pending, first, count, count,
                      faults == NO_FAULTS && Loads(broker.active))
    {
      ghost var sure := faults == NO_FAULTS && Loads(broker.active);
      DroppedNone(broker.pending, first, count, sure);
      out := Done;
      for i := 0 to count
        invariant Valid() && out == Done && Dropped(old(broker.pending), broker.pending, first, i, count, sure)
      {
        out := AbortNext(old(broker.pending), first, i, count, faults);
        if out == Crashed {
          return;
        }
        out := Done;
      }
    }

    method AbortNext(ghost before: map<Id, Change>, first: nat, i: nat, count: nat, faults: Faults)
      returns (out: Outcome)
      requires Valid() && i < count && first + i !in decided
      requires Dropped(before, broker.pending, first, i, count, faults == NO_FAULTS && Loads(broker.active))
      modifies broker`pending
      ensures Valid() && (out == Crashed ==> faults.crashes)
      ensures Dropped(before, broker.pending, first, i + 1, count, faults == NO_FAULTS && Loads(broker.active))
      ensures out == Crashed ==>
                Dropped(before, broker.pending, first, count, count, faults == NO_FAULTS && Loads(broker.active))
    {
      ghost var pending := broker.pending;
      out := RemoteAbort(first + i, faults);
      DroppedNext(before, pending, broker.pending, first, i, count, faults == NO_FAULTS && Loads(broker.active));
    }

    /** Prepares all changes at the Broker, dropping them again when one is refused. */
    method PrepareAll(changes: seq<Change>, refused: set<nat>, faults: Faults) returns (out: Outcome)
      requires Valid()
      modifies broker`pending, this`issued
      ensures Valid() && (out == Crashed ==> faults.crashes)
      ensures if out == Done then Preparing(old(Now()), Now(), changes, |changes|, refused, faults)
              else Declines(old(Now()), Now(), changes, refused, true, faults)
    {
      ghost var before := Now();
      out := Done;
      NothingPrepared(before, changes, refused, faults);
      for i := 0 to |changes|
        invariant Valid() && out == Done && Preparing(before, Now(), changes, i, refused, faults)
      {
        out := PrepareNext(before, changes, i, refused, faults);
        if out != Done {
          return;
        }
      }
    }

    method PrepareNext(ghost before: World, changes: seq<Change>, i: nat, refused: set<nat>, faults: Faults)
      returns (out: Outcome)
      requires Valid() && Agree(before) && i < |changes| && Preparing(before, Now(), changes, i, refused, faults)
      modifies broker`pending, this`issued
      ensures Valid() && (out == Crashed ==> faults.crashes)
      ensures if out == Done then Preparing(before, Now(), changes, i + 1, refused, faults)
              else Declines(before, Now(), changes, refused, true, faults)
    {
      ghost var now := Now();
      ghost var taken;
      out, taken := RemotePrepare(changes[i], i !in refused, faults);
      if out == Done {
        OnePrepared(before, now, changes, i, refused, faults);
      } else {
        OneLost(before, now, Now(), changes, i, refused, faults);
        out := GiveUp(before, changes, i, refused, out, faults);
      }
    }

    /** Creates, updates, deletes or imports cards: the changes are prepared, the transaction writes the
        cards and the rows or has no effect, and what it decided is completed.  `refused` are the changes
        that fail validation, and `written` says whether the statements succeed.  All changes are decided,
        under the numbers from `first` on, or none; success means that they are in effect in order. */
    method Mutate(changes: seq<Change>, refused: set<nat>, written: bool, faults: Faults)
      returns (out: Outcome, ghost first: Option<nat>)
      requires Valid()
      modifies this, broker
      ensures Valid() && (out == Crashed ==> faults.crashes)
      ensures Mutated(old(Now()), Now(), changes, refused, written, out, first, faults)
    {
      ghost var before := Now();
      out := PrepareAll(changes, refused, faults);
      if out == Done {
        out, first := Write(before, changes, refused, written, faults);
      } else {
        first := None;
        DeclinesAnyway(before, Now(), changes, refused, written, faults);
      }
    }

    /** The transaction, and what follows its outcome. */
    method Write(ghost before: World, changes: seq<Change>, ghost refused: set<nat>, written: bool, faults: Faults)
      returns (out: Outcome, ghost first: Option<nat>)
      requires Valid() && Agree(before) && Preparing(before, Now(), changes, |changes|, refused, faults)
      modifies this`rows, this`decided, broker
      ensures Valid() && (out == Crashed ==> faults.crashes)
      ensures Mutated(before, Now(), changes, refused, written, out, first, faults)
    {
      ghost var prepared := Now();
      AllArePrepared(before, prepared, changes, refused, faults);
      var commits := *;
      if !written || (faults.store && !commits) {
        first := None;
        out := Withdraw(before, changes, refused, written, faults);
      } else {
        first := Some(before.issued);
        out := DecideAndComplete(before, changes, faults);
        assert faults == NO_FAULTS ==> Accepted(before, changes, refused, written);
      }
    }

    /** The transaction had no effect. */
    method Withdraw(ghost before: World, changes: seq<Change>, ghost refused: set<nat>, ghost written: bool,
                    faults: Faults)
      returns (out: Outcome)
      requires Valid() && Agree(before) && Now() == AllPrepared(before, changes)
      requires faults == NO_FAULTS ==> !written && (changes == [] || Loads(broker.active))
      modifies broker`pending
      ensures Valid() && out != Done && (out == Crashed ==> faults.crashes)
      ensures Declines(before, Now(), changes, refused, written, faults)
    {
      ghost var now := Now();
      assert issued - |changes| == before.issued;
      out := AbortAll(issued - |changes|, |changes|, faults);
      Withdrawn(before, now, Now(), changes, refused, written, faults == NO_FAULTS && Loads(broker.active), faults);
      out := if out == Crashed then Crashed else Failed;
    }

    method DecideAndComplete(ghost before: World, changes: seq<Change>, faults: Faults) returns (out: Outcome)
      requires Valid() && Agree(before) && Now() == AllPrepared(before, changes)
      modifies this`rows, this`decided, broker
      ensures Valid() && (out == Crashed ==> faults.crashes) && Decides(before, Now(), changes, out, faults)
    {
      Decide(before, changes);
      var dies := *;
      if faults.crashes && dies {
        AddedDecides(before, changes, faults);
        return Crashed;
      }
      out := CompleteNew(before, changes, faults);
    }

    /** The commit of the transaction. */
    method Decide(ghost before: World, changes: seq<Change>)
      requires Valid() && Agree(before) && Now() == AllPrepared(before, changes)
      modifies this`rows, this`decided
      ensures Valid() && Now() == AllAdded(before, changes)
    {
      AllAddedAgrees(before, changes);
      var first := issued - |changes|;
      assert first == before.issued && rows == before.rows && decided == before.decided;
      rows := rows + NewRows(Batch(first, |changes|));
      decided := decided + Numbered(first, changes);
      assert rows == AllAdded(before, changes).rows && decided == AllAdded(before, changes).decided;
      assert Now() == AllAdded(before, changes);
    }

    /** The completion right after the transaction. */
    method CompleteNew(ghost before: World, changes: seq<Change>, faults: Faults) returns (out: Outcome)
      requires Valid() && Agree(before) && Now() == AllAdded(before, changes)
      modifies this`rows, broker
      ensures Valid() && (out == Crashed ==> faults.crashes) && Decides(before, Now(), changes, out, faults)
    {
      var first := issued - |changes|;
      MutationListed(first, |changes|, before.rows);
      assert first == before.issued && rows == AllAdded(before, changes).rows;
      ghost var n;
      out, n := Complete(Operations(first, |changes|), faults);
      NewCompleted(before, Now(), changes, n, out, faults);
    }

    /** All rows in the order of creation. */
    method Query() returns (operations: seq<Operation>)
      requires Valid()
      ensures AllListed(operations, Now())
    {
      operations := [];
      for id := 0 to issued
        invariant Listed(operations, rows)
        invariant forall i | 0 <= i < |operations| :: operations[i].id < id
        invariant Earlier(operations, |operations|) == set row | row in rows && row < id
      {
        if id in rows {
          EarlierOfMore(operations, Operation(id, rows[id]));
          operations := operations + [Operation(id, rows[id])];
        }
      }
    }

    /** Finishes, at a restart, what earlier transactions decided.  Without faults it fails exactly when
        receipts or too many connections block it, and is then blocked again; otherwise nothing is left to
        do. */
    method Reconcile(faults: Faults) returns (out: Outcome)
      requires Valid()
      modifies this`rows, broker
      ensures Valid() && decided == old(decided) && Restarted(old(Now()), Now(), out)
      ensures out == Done ==> Settled(Now())
      ensures out == Done ==> forall card :: UpToDate(Now(), card) <==> !Overtaken(old(Now()), card)
      ensures faults == NO_FAULTS ==> (out == Done <==> !Blocked(old(Now())))
      ensures faults == NO_FAULTS ==> (out == Done <==> !Blocked(Now()))
      ensures faults == NO_FAULTS && !Loads(old(broker.active)) ==> Now() == old(Now())
    {
      var runs := *;
      ghost var before := Now();
      if faults.store && !runs {
        return Failed;
      }
      var operations := Query();
      ghost var n;
      out, n := Complete(operations, faults);
      RestartDone(before, Now(), operations, n, out, faults);
      if faults == NO_FAULTS {
        RestartBlocked(before, Now(), operations, n, out, faults);
      }
    }

    method GiveUp(ghost before: World, changes: seq<Change>, i: nat, ghost refused: set<nat>, failure: Outcome,
                  faults: Faults)
      returns (out: Outcome)
      requires Valid() && failure != Done && (failure == Crashed ==> faults.crashes) && Agree(before)
      requires i < |changes| && GivesUp(before, Now(), changes, i, refused, faults)
      modifies broker`pending
      ensures Valid() && out != Done && (out == Crashed ==> faults.crashes)
      ensures Declines(before, Now(), changes, refused, true, faults)
    {
      ghost var now := Now();
      out := Crashed;
      if failure == Failed {
        out := AbortAll(issued - 1 - i, i, faults);
      }
      NothingLeft(before, now, Now(), changes, i, refused,
                  failure == Failed && faults == NO_FAULTS && Loads(broker.active), faults);
      out := if out == Crashed then Crashed else Failed;
    }
  }

  /** What a turn did: everything, or it failed on the way. */
  lemma TurnTaken(before: World, noted: World, now: World, operation: Operation, out: Outcome)
    requires Agree(before) && operation.id in before.rows && before.rows[operation.id] == operation.phase
    requires noted == if operation.phase.Committed? then before else Noted(before, operation.id)
    requires now == noted.(rows := now.rows, completed := now.completed)
    requires now.rows == noted.rows || now.rows == noted.rows - {operation.id}
    requires out == Done ==>
               now.rows == noted.rows - {operation.id} && now.completed == noted.completed - {operation.id}
    ensures KeepsOthers(before, now, operation.id)
    ensures out == Done ==> now == Finished(before, operation.id)
  {
    var id := operation.id;
    assert noted.rows - {id} == before.rows - {id} && noted.pending - {id} == before.pending - {id};
    assert noted.pending == before.pending - {id};
    assert noted.completed - {id} == before.completed - {id};
  }

  /** Without faults it failed for what can be seen before it. */
  lemma TurnFails(before: World, noted: World, now: World, operation: Operation, out: Outcome)
    requires Agree(before) && operation.id in before.rows && before.rows[operation.id] == operation.phase
    requires noted == if operation.phase.Committed? then before else Noted(before, operation.id)
    requires operation.phase.Prepared? ==> !Refused(before, operation.id)
    requires out == Done <==> Loads(Result(noted.history))
    requires out != Done ==> now == noted
    ensures out == Done <==> !Fails(before, operation.id)
    ensures out != Done ==> now == Halted(before, operation.id)
  {
  }

  /** The first `n` operations are finished; `out` says whether the next one failed.  Without faults only
      what the Broker holds makes it fail. */
  ghost predicate Reached(before: World, now: World, operations: seq<Operation>, n: nat, out: Outcome, faults: Faults)
    requires n <= |operations|
  {
    && (out != Done ==> n < |operations|)
    && Came(AllFinished(before, operations, n), now, if n < |operations| then operations[n].id else 0, out, faults)
    && (faults == NO_FAULTS ==> NoneFail(before, operations, n))
  }

  /** The state is `turn`, or the turn of operation `id` failed on the way. */
  ghost predicate Came(turn: World, now: World, id: Id, out: Outcome, faults: Faults) {
    && (out == Crashed ==> faults.crashes)
    && (out == Done ==> now == turn)
    && (out != Done ==> KeepsOthers(turn, now, id))
    && (out != Done && faults == NO_FAULTS ==> Fails(turn, id) && now == Halted(turn, id))
  }

  /** A turn that was taken, or failed on the way. */
  ghost predicate Turned(turn: World, now: World, id: Id, out: Outcome, faults: Faults) {
    if out == Done then now == Finished(turn, id) && (faults == NO_FAULTS ==> !Fails(turn, id))
    else Came(turn, now, id, out, faults)
  }

  lemma ReachedFirst(before: World, operations: seq<Operation>, faults: Faults)
    ensures Reached(before, before, operations, 0, Done, faults)
  {
  }

  lemma ReachedNext(before: World, now: World, next: World, operations: seq<Operation>, i: nat, faults: Faults)
    requires i < |operations| && Reached(before, now, operations, i, Done, faults)
    requires Turned(now, next, operations[i].id, Done, faults)
    ensures Reached(before, next, operations, i + 1, Done, faults)
  {
    NoneFailsNext(before, operations, i, faults);
    assert next == AllFinished(before, operations, i + 1);
  }

  lemma ReachedLast(before: World, now: World, next: World, operations: seq<Operation>, i: nat, out: Outcome,
                    faults: Faults)
    requires i < |operations| && out != Done && Reached(before, now, operations, i, Done, faults)
    requires Turned(now, next, operations[i].id, out, faults)
    ensures Reached(before, next, operations, i, out, faults)
  {
    assert now == AllFinished(before, operations, i);
  }

  lemma NoneFailsNext(before: World, operations: seq<Operation>, i: nat, faults: Faults)
    requires i < |operations|
    requires faults == NO_FAULTS ==>
               NoneFail(before, operations, i) && !Fails(AllFinished(before, operations, i), operations[i].id)
    ensures faults == NO_FAULTS ==> NoneFail(before, operations, i + 1)
  {
  }

  /** The connections stay few enough while the changes take effect. */
  predicate Fits(active: map<string, string>, changes: seq<Change>) {
    forall n | 0 <= n <= |changes| :: FitsAt(active, changes, n)
  }

  predicate FitsAt(active: map<string, string>, changes: seq<Change>, n: nat)
    requires n <= |changes|
  {
    Loads(AllChanged(active, changes[..n]))
  }

  /** The Broker has too many connections in effect, and something is left to finish. */
  ghost predicate Stuck(w: World) {
    !Loads(Result(w.history)) && w.rows != map[]
  }

  /** A mutation that decided its changes; `out` is the outcome of delivering them. */
  ghost predicate Decides(before: World, now: World, changes: seq<Change>, out: Outcome, faults: Faults) {
    && now.decided == before.decided + Numbered(before.issued, changes)
    && now.issued == before.issued + |changes| && Origin(now.history) == Origin(before.history)
    && Submap(before.pending, now.pending) && Submap(before.rows, now.rows)
    && (out == Done ==>
          && now.rows == before.rows && now.pending == before.pending && now.completed == before.completed
          && Result(now.history) == AllChanged(Result(before.history), changes))
    && (faults == NO_FAULTS ==>
          (out == Done <==> changes == [] ||
                            (|before.completed| < MAX_COMPLETED && Fits(Result(before.history), changes))))
    && (faults == NO_FAULTS && out != Done && |before.completed| < MAX_COMPLETED ==> Stuck(now))
  }

  /** All changes are decided, under the numbers from `first` on, or none. */
  ghost predicate Mutated(before: World, now: World, changes: seq<Change>, refused: set<nat>, written: bool,
                          out: Outcome, first: Option<nat>, faults: Faults)
  {
    match first
    case None => out != Done && Declines(before, now, changes, refused, written, faults)
    case Some(n) =>
      && n == before.issued && Decides(before, now, changes, out, faults)
      && (faults == NO_FAULTS ==> Accepted(before, changes, refused, written))
  }

  lemma NewCompleted(before: World, now: World, changes: seq<Change>, n: nat, out: Outcome, faults: Faults)
    requires Agree(before) && n <= |changes| && (out == Done <==> n == |changes|)
    requires Reached(AllAdded(before, changes), now, Operations(before.issued, |changes|), n, out, faults)
    ensures Decides(before, now, changes, out, faults)
  {
    var added, operations := AllAdded(before, changes), Operations(before.issued, |changes|);
    StoppedAt(added, now, operations, n);
    EarlierAre(before.issued, |changes|, |changes|);
    AddedThenRemoved(before, changes);
    if out == Done {
      MutationFinished(before, changes);
    }
    if faults == NO_FAULTS {
      AddedIsReady(before, changes);
      NewFails(added, now, before.issued, changes, n, out);
    }
  }

  /** The operations from `first` on are in place for the changes, and none has a receipt. */
  ghost predicate Ready(w: World, first: nat, changes: seq<Change>) {
    && Knows(w.pending, first, changes)
    && (forall id: Id | first <= id < first + |changes| :: id in w.rows)
    && forall id | id in w.completed :: id < first
  }

  lemma AddedIsReady(w: World, changes: seq<Change>)
    requires Agree(w)
    ensures Ready(AllAdded(w, changes), w.issued, changes)
  {
    AppliedIsDecided(w.history, w.decided);
    AddedIsKnown(w.pending, w.issued, changes);
  }

  lemma NewFails(w: World, now: World, first: nat, changes: seq<Change>, n: nat, out: Outcome)
    requires Ready(w, first, changes) && n <= |changes| && (out == Done <==> n == |changes|)
    requires Reached(w, now, Operations(first, |changes|), n, out, NO_FAULTS)
    ensures out == Done <==> changes == [] || (|w.completed| < MAX_COMPLETED && Fits(Result(w.history), changes))
    ensures out != Done && |w.completed| < MAX_COMPLETED ==> Stuck(now)
  {
    if n < |changes| {
      var operations := Operations(first, |changes|);
      ReachedFails(w, now, operations, n, out);
      NewTurn(w, first, changes, n, operations[n].id);
      NewStopped(w, now, changes, n, AllFinished(w, operations, n), operations[n].id);
    } else {
      DoneFits(w, first, changes);
    }
  }

  /** The turn fails for want of room for a receipt, or because of the changes up to its own, and then
      leaves too many connections. */
  ghost predicate TurnDecided(w: World, changes: seq<Change>, i: nat, turn: World, id: Id)
    requires i < |changes|
  {
    && (Fails(turn, id) <==> |w.completed| >= MAX_COMPLETED || !FitsAt(Result(w.history), changes, i) ||
                             !FitsAt(Result(w.history), changes, i + 1))
    && (Fails(turn, id) && |w.completed| < MAX_COMPLETED ==> Stuck(Halted(turn, id)))
  }

  lemma NewStopped(w: World, now: World, changes: seq<Change>, i: nat, turn: World, id: Id)
    requires i < |changes| && TurnDecided(w, changes, i, turn, id) && Fails(turn, id) && now == Halted(turn, id)
    ensures |w.completed| >= MAX_COMPLETED || (!Fits(Result(w.history), changes) && Stuck(now))
  {
    assert Fits(Result(w.history), changes) ==>
             FitsAt(Result(w.history), changes, i) && FitsAt(Result(w.history), changes, i + 1);
  }

  lemma DoneFits(w: World, first: nat, changes: seq<Change>)
    requires Ready(w, first, changes) && NoneFail(w, Operations(first, |changes|), |changes|)
    ensures changes == [] || (|w.completed| < MAX_COMPLETED && Fits(Result(w.history), changes))
  {
    if changes != [] {
      DoneFitsAt(w, first, changes, 0);
      forall k | 0 < k <= |changes| ensures FitsAt(Result(w.history), changes, k) {
        DoneFitsAt(w, first, changes, k - 1);
      }
    }
  }

  lemma DoneFitsAt(w: World, first: nat, changes: seq<Change>, i: nat)
    requires Ready(w, first, changes) && i < |changes|
    requires NoneFail(w, Operations(first, |changes|), |changes|)
    ensures |w.completed| < MAX_COMPLETED
    ensures FitsAt(Result(w.history), changes, i) && FitsAt(Result(w.history), changes, i + 1)
  {
    var operations := Operations(first, |changes|);
    NoneFailAt(w, operations, |changes|, i);
    NewTurn(w, first, changes, i, operations[i].id);
  }

  lemma NewTurn(w: World, first: nat, changes: seq<Change>, i: nat, id: Id)
    requires Ready(w, first, changes) && i < |changes| && id == first + i
    ensures TurnDecided(w, changes, i, AllFinished(w, Operations(first, |changes|), i), id)
  {
    LeftAfter(w, first, |changes|, i);
    HistoryAfter(w, first, changes, i);
    TurnShows(w, first, changes, i, AllFinished(w, Operations(first, |changes|), i), id);
  }

  lemma TurnShows(w: World, first: nat, changes: seq<Change>, i: nat, turn: World, id: Id)
    requires Ready(w, first, changes) && i < |changes| && id == first + i
    requires var ids := Batch(first, i);
             && turn.pending == w.pending - ids && turn.completed == w.completed - ids && turn.rows == w.rows - ids
             && turn.history == Extended(w.history, first, changes, i)
    ensures TurnDecided(w, changes, i, turn, id)
  {
    TurnHas(w, first, changes, i, turn, id);
    EffectsInOrder(w.history, first, changes, i);
    EffectsInOrder(w.history, first, changes, i + 1);
    FailsIff(turn, id, AllChanged(Result(w.history), changes[..i]), AllChanged(Result(w.history), changes[..i + 1]));
  }

  lemma TurnHas(w: World, first: nat, changes: seq<Change>, i: nat, turn: World, id: Id)
    requires Ready(w, first, changes) && i < |changes| && id == first + i
    requires var ids := Batch(first, i);
             && turn.pending == w.pending - ids && turn.completed == w.completed - ids && turn.rows == w.rows - ids
             && turn.history == Extended(w.history, first, changes, i)
    ensures id in turn.pending && id in turn.rows && turn.completed == w.completed
    ensures Delivered(turn, id).history == Extended(w.history, first, changes, i + 1)
  {
    assert id in w.pending && w.pending[id] == changes[i] && id in w.rows;
  }

  lemma FailsIff(turn: World, id: Id, here: map<string, string>, next: map<string, string>)
    requires id in turn.pending && id in turn.rows
    requires Result(turn.history) == here && Result(Delivered(turn, id).history) == next
    ensures Fails(turn, id) <==> |turn.completed| >= MAX_COMPLETED || !Loads(here) || !Loads(next)
    ensures Fails(turn, id) && |turn.completed| < MAX_COMPLETED ==> Stuck(Halted(turn, id))
  {
    assert id in Noted(turn, id).rows;
  }

  lemma {:induction false} NoneFailAt(w: World, operations: seq<Operation>, n: nat, i: nat)
    requires i < n <= |operations| && NoneFail(w, operations, n)
    ensures !Fails(AllFinished(w, operations, i), operations[i].id)
  {
    if i < n - 1 {
      NoneFailAt(w, operations, n - 1, i);
    }
  }

  lemma ReachedFails(w: World, now: World, operations: seq<Operation>, n: nat, out: Outcome)
    requires n < |operations| && out != Done && Reached(w, now, operations, n, out, NO_FAULTS)
    ensures Fails(AllFinished(w, operations, n), operations[n].id)
    ensures now == Halted(AllFinished(w, operations, n), operations[n].id)
  {
  }

  lemma AddedDecides(before: World, changes: seq<Change>, faults: Faults)
    requires Agree(before) && faults.crashes
    ensures Decides(before, AllAdded(before, changes), changes, Crashed, faults)
  {
  }

  ghost predicate NoneFail(before: World, operations: seq<Operation>, n: nat)
    requires n <= |operations|
  {
    n > 0 ==>
      NoneFail(before, operations, n - 1) && !Fails(AllFinished(before, operations, n - 1), operations[n - 1].id)
  }

  lemma HalfTaken(before: World, middle: World, now: World, id: Id)
    requires middle == before || middle == Delivered(before, id)
    requires now == middle || now == middle.(rows := middle.rows[id := Committed])
    requires id in before.rows
    ensures KeepsOthers(before, now, id)
  {
    assert now.rows - {id} == before.rows - {id};
    assert now.pending - {id} == before.pending - {id};
  }

  // ---------------------------------------------------------------- any run

  datatype Call = Mutation(changes: seq<Change>, refused: set<nat>, written: bool) | Restart

  function ChangesOf(call: Call): seq<Change> {
    if call.Mutation? then call.changes else []
  }

  /** What the transactions of a run decided, given the number of the first change of each that committed. */
  function DecidedBy(calls: seq<Call>, firsts: seq<Option<nat>>): map<Id, Change>
    requires |firsts| <= |calls|
    decreases |firsts|
  {
    if firsts == [] then map[]
    else
      var i := |firsts| - 1;
      var earlier := DecidedBy(calls, firsts[..i]);
      if firsts[i].Some? then earlier + Numbered(firsts[i].value, ChangesOf(calls[i])) else earlier
  }

  /** The numbers of a call come after those of the calls before it, and all are below `issued`. */
  ghost predicate Ordered(calls: seq<Call>, firsts: seq<Option<nat>>, issued: nat)
    requires |firsts| <= |calls|
  {
    && (forall i | 0 <= i < |firsts| && firsts[i].Some? ::
          calls[i].Mutation? && firsts[i].value + |ChangesOf(calls[i])| <= issued)
    && (forall i, j | 0 <= i < j < |firsts| && firsts[i].Some? && firsts[j].Some? ::
          firsts[i].value + |ChangesOf(calls[i])| <= firsts[j].value)
  }

  /** The outbox seen from outside while nothing goes wrong: an accepted mutation takes effect at once, or
      for good nothing does any more once one leaves too many connections on the way. */
  function Direct(active: map<string, string>, calls: seq<Call>, n: nat): Option<map<string, string>>
    requires n <= |calls|
  {
    if n == 0 then Some(active)
    else
      var before := Direct(active, calls, n - 1);
      if before.None? then None else DirectCall(before.value, calls[n - 1])
  }

  function DirectCall(active: map<string, string>, call: Call): Option<map<string, string>> {
    if !Decided(active, call) then Some(active)
    else if !Delivers(active, call) then None
    else Some(AllChanged(active, ChangesOf(call)))
  }

  predicate Decided(active: map<string, string>, call: Call) {
    call.Mutation? && call.written && Admissible(0, active, call.changes, |call.changes|, call.refused)
  }

  predicate Delivers(active: map<string, string>, call: Call) {
    ChangesOf(call) == [] || Fits(active, ChangesOf(call))
  }

  predicate Succeeds(before: Option<map<string, string>>, call: Call) {
    match before
    case None => call.Mutation? && call.written && call.changes == []
    case Some(active) => call.Mutation? ==> Decided(active, call) && Delivers(active, call)
  }

  /** Both sides after the first calls of a run: what was decided is what these calls asked for. */
  ghost predicate Accounted(start: map<string, string>, calls: seq<Call>, w: World, outs: seq<Outcome>,
                            firsts: seq<Option<nat>>)
  {
    && |outs| == |firsts| <= |calls|
    && Origin(w.history) == start
    && w.decided == DecidedBy(calls, firsts) && Ordered(calls, firsts, w.issued)
    && forall i | 0 <= i < |outs| && outs[i] == Done && calls[i].Mutation? :: firsts[i].Some?
  }

  ghost predicate Clean(w: World) {
    w.rows == map[] && w.completed == {} && w.pending == map[]
  }

  ghost predicate Shows(w: World, direct: Option<map<string, string>>) {
    if direct.None? then Stuck(w) else Clean(w) && Result(w.history) == direct.value
  }

  /** Without faults every call succeeds or fails as it would directly. */
  ghost predicate AsDirect(start: map<string, string>, calls: seq<Call>, w: World, outs: seq<Outcome>)
    requires |outs| <= |calls|
  {
    && Shows(w, Direct(start, calls, |outs|))
    && forall i | 0 <= i < |outs| :: outs[i] == Done <==> CallSucceeds(start, calls, i)
  }

  predicate CallSucceeds(start: map<string, string>, calls: seq<Call>, i: nat)
    requires i < |calls|
  {
    Succeeds(Direct(start, calls, i), calls[i])
  }

  /** An import of two connections when one is missing to the full number succeeds with neither restart
      nor mutation ever after. */
  lemma ImportCrowds(active: map<string, string>, first: Change, second: Change, calls: seq<Call>, n: nat)
    requires |active| == MAX_CONNECTIONS - 1 && first.Put? && second.Put? && first.card != second.card
    requires first.card !in active && second.card !in active
    requires 0 < n <= |calls| && calls[0] == Mutation([first, second], {}, true)
    ensures Decided(active, calls[0]) && !Succeeds(Direct(active, calls, 0), calls[0])
    ensures Direct(active, calls, n).None?
  {
    var changes := [first, second];
    ChangedSize(active, first);
    ChangedSize(Changed(active, first), second);
    assert changes[..2] == changes && changes[..1] == [first];
    assert AllChanged(active, [first]) == Changed(active, first) by {
      assert [first][..0] == [];
    }
    assert AllChanged(active, changes) == Changed(Changed(active, first), second);
    assert !FitsAt(active, changes, 2);
    assert Direct(active, calls, 0) == Some(active);
    NoneForGood(active, calls, 1, n);
  }

  lemma {:induction false} NoneForGood(active: map<string, string>, calls: seq<Call>, m: nat, n: nat)
    requires m <= n <= |calls| && Direct(active, calls, m).None?
    ensures Direct(active, calls, n).None?
    decreases n
  {
    if m < n {
      NoneForGood(active, calls, m, n - 1);
    }
  }

  lemma AccountedNext(start: map<string, string>, calls: seq<Call>, w: World, v: World, outs: seq<Outcome>,
                      firsts: seq<Option<nat>>, out: Outcome, first: Option<nat>)
    requires Accounted(start, calls, w, outs, firsts) && |outs| < |calls|
    requires Origin(v.history) == Origin(w.history) && v.issued >= w.issued
    requires match first
             case None => v.decided == w.decided && (out == Done ==> calls[|outs|].Restart?)
             case Some(n) => calls[|outs|].Mutation? && n == w.issued && v.issued == n + |calls[|outs|].changes| &&
                             v.decided == w.decided + Numbered(n, calls[|outs|].changes)
    ensures Accounted(start, calls, v, outs + [out], firsts + [first])
  {
    var i := |outs|;
    assert (firsts + [first])[..i] == firsts;
    assert v.decided == DecidedBy(calls, firsts + [first]);
  }

  lemma DirectNext(start: map<string, string>, calls: seq<Call>, w: World, v: World, outs: seq<Outcome>, out: Outcome)
    requires |outs| < |calls| && AsDirect(start, calls, w, outs)
    requires Shows(v, Direct(start, calls, |outs| + 1))
    requires out == Done <==> CallSucceeds(start, calls, |outs|)
    ensures AsDirect(start, calls, v, outs + [out])
  {
    var all := outs + [out];
    forall i | 0 <= i < |all| ensures all[i] == Done <==> CallSucceeds(start, calls, i) {
      assert i < |outs| ==> all[i] == outs[i];
    }
  }

  lemma DirectMutation(w: World, v: World, call: Call, out: Outcome, first: Option<nat>)
    requires call.Mutation? && Clean(w)
    requires Mutated(w, v, call.changes, call.refused, call.written, out, first, NO_FAULTS)
    ensures var active := Result(w.history);
            && (out == Done <==> Decided(active, call) && Delivers(active, call))
            && (!Decided(active, call) ==> Clean(v) && Result(v.history) == active)
            && (out == Done ==> Clean(v) && Result(v.history) == AllChanged(active, call.changes))
            && (Decided(active, call) && !Delivers(active, call) ==> Stuck(v))
  {
  }

  lemma DirectRestart(w: World)
    requires Agree(w)
    ensures Clean(w) ==> !Blocked(w)
    ensures Stuck(w) ==> Blocked(w)
  {
    if Clean(w) {
      NoRowsSettled(w);
    }
    if Stuck(w) {
      assert !Loads(Through(w, 0));
    }
  }

  lemma StuckMutation(w: World, v: World, call: Call, out: Outcome, first: Option<nat>)
    requires call.Mutation? && Stuck(w)
    requires Mutated(w, v, call.changes, call.refused, call.written, out, first, NO_FAULTS)
    ensures Stuck(v) && (out == Done <==> call.written && call.changes == [])
  {
    if call.changes != [] {
      assert !HasRoom(|w.pending| + 0, Result(w.history), call.changes[0]);
    }
  }

  /** Any run of mutations and restarts, with any faults, from an empty outbox; then a restart without
      faults.  `first[i]` is the number of the first change that call `i` decided, if it did. */
  method AnyRun(start: map<string, string>, calls: seq<Call>, faults: Faults)
    returns (out: Outcome, manager: Manager, outs: seq<Outcome>, ghost firsts: seq<Option<nat>>, ghost before: World)
    ensures fresh(manager) && fresh(manager.broker) && manager.Valid() && Agree(before)
    ensures |outs| == |calls| && Accounted(start, calls, before, outs, firsts)
    ensures Accounted(start, calls, manager.Now(), outs, firsts)
    ensures out == Done <==> !Blocked(before)
    ensures out == Done ==> Settled(manager.Now())
    ensures out == Done ==> forall card :: UpToDate(manager.Now(), card) <==> !Overtaken(before, card)
    ensures faults == NO_FAULTS ==> manager.Now() == before && AsDirect(start, calls, before, outs)
  {
    var broker := new Broker(start);
    manager := new Manager(broker);
    outs, firsts := [], [];
    for i := 0 to |calls|
      invariant fresh(manager) && fresh(manager.broker) && manager.Valid() && |outs| == i
      invariant Accounted(start, calls, manager.Now(), outs, firsts)
      invariant faults == NO_FAULTS ==> AsDirect(start, calls, manager.Now(), outs)
    {
      outs, firsts := OneCall(start, manager, calls, outs, firsts, faults);
    }
    before := manager.Now();
    DirectRestart(before);
    out := manager.Reconcile(NO_FAULTS);
  }

  method OneCall(ghost start: map<string, string>, manager: Manager, calls: seq<Call>, outs: seq<Outcome>,
                 ghost firsts: seq<Option<nat>>, faults: Faults)
    returns (outs': seq<Outcome>, ghost firsts': seq<Option<nat>>)
    requires manager.Valid() && |outs| < |calls| && Accounted(start, calls, manager.Now(), outs, firsts)
    requires faults == NO_FAULTS ==> AsDirect(start, calls, manager.Now(), outs)
    modifies manager, manager.broker
    ensures manager.Valid() && |outs'| == |outs| + 1 && Accounted(start, calls, manager.Now(), outs', firsts')
    ensures faults == NO_FAULTS ==> AsDirect(start, calls, manager.Now(), outs')
  {
    ghost var w := manager.Now();
    ghost var first := None;
    var call, out := calls[|outs|], Failed;
    if call.Mutation? {
      out, first := manager.Mutate(call.changes, call.refused, call.written, faults);
      if faults == NO_FAULTS {
        if Direct(start, calls, |outs|).Some? {
          DirectMutation(w, manager.Now(), call, out, first);
        } else {
          StuckMutation(w, manager.Now(), call, out, first);
        }
      }
    } else {
      out := manager.Reconcile(faults);
      if faults == NO_FAULTS {
        DirectRestart(w);
      }
    }
    AccountedNext(start, calls, w, manager.Now(), outs, firsts, out, first);
    if faults == NO_FAULTS {
      DirectNext(start, calls, w, manager.Now(), outs, out);
    }
    outs', firsts' := outs + [out], firsts + [first];
  }
}
