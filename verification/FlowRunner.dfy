/** The concurrent flow runner: `Start`, one worker per accepted start, and the persisted history.

    A step is what one goroutine does while it holds the runner's mutex, or the write of the history
    file, which happens under the history mutex alone.  A run is any interleaving of such steps. */
module FlowRunner {

  import opened Wrappers

  const HISTORY_KEEP := 12

  type Card = string

  /** What is kept per card; `version` numbers the states of the view that readers see. */
  datatype Run = Run(id: nat, version: nat, finished: bool, recorded: bool)

  type History = map<Card, seq<nat>>

  /** Where a worker stands: executing nodes, then waiting for the history mutex, holding it before
      and after the recording, and done once the file was written and the mutex released. */
  datatype Place = Executing | Waiting | Holding | Recorded(snapshot: History) | Done

  datatype Worker = Worker(card: Card, place: Place)

  /** A change of a view: which worker made it, and the run it landed on. */
  datatype ViewWrite = ViewWrite(worker: nat, target: nat)

  datatype State = State(
    runs: map<Card, Run>, history: History, nextID: nat, version: nat, closed: bool,
    workers: map<nat, Worker>, historyMutex: Option<nat>, file: Option<History>,
    // what happened so far
    loaded: History, writes: seq<ViewWrite>, entered: seq<nat>, entries: map<Card, seq<nat>>, writesFailed: bool)

  datatype Action =
    | Start(card: Card)
    | Mutate(worker: nat)
    | Finish(worker: nat)
    | Lock(worker: nat)
    | Record(worker: nat)
    | Persist(worker: nat, ok: bool)
    | Close

  function Initial(loaded: History): State {
    State(map[], loaded, 0, 0, false, map[], None, None, loaded, [], [], map[], false)
  }

  function Entries(history: map<Card, seq<nat>>, card: Card): seq<nat> {
    if card in history then history[card] else []
  }

  function Newest(entries: seq<nat>): seq<nat> {
    if |entries| > HISTORY_KEEP then entries[..HISTORY_KEEP] else entries
  }

  predicate At(s: State, worker: nat, place: Place) {
    worker in s.workers && s.workers[worker].place == place
  }

  /** `Start` refuses a card whose last run is unfinished or not yet in the history. */
  predicate Conflict(s: State, card: Card) {
    card in s.runs && !(s.runs[card].finished && s.runs[card].recorded)
  }

  /** `mutate`: addresses the run through the card, whichever run that is by now. */
  function Touched(s: State, worker: nat, finish: bool): State
    requires worker in s.workers && s.workers[worker].card in s.runs
  {
    var card := s.workers[worker].card;
    var run := s.runs[card];
    s.(runs := s.runs[card := run.(version := s.version + 1, finished := run.finished || finish)],
       version := s.version + 1, writes := s.writes + [ViewWrite(worker, run.id)])
  }

  function Moved(s: State, worker: nat, place: Place): State
    requires worker in s.workers
  {
    s.(workers := s.workers[worker := s.workers[worker].(place := place)])
  }

  /** One step; an action that is not possible changes nothing. */
  function Next(s: State, action: Action): State {
    match action
    case Start(card) =>
      if s.closed || Conflict(s, card) then s
      else
        var id := s.nextID + 1;
        s.(nextID := id, version := s.version + 1, runs := s.runs[card := Run(id, s.version + 1, false, false)],
           workers := s.workers[id := Worker(card, Executing)])
    case Mutate(worker) =>
      if At(s, worker, Executing) && s.workers[worker].card in s.runs then Touched(s, worker, false) else s
    case Finish(worker) =>
      if At(s, worker, Executing) && s.workers[worker].card in s.runs
      then Moved(Touched(s, worker, true), worker, Waiting) else s
    case Lock(worker) =>
      if At(s, worker, Waiting) && s.historyMutex.None?
          then Moved(s, worker, Holding).(historyMutex := Some(worker)) else s
    case Record(worker) =>
      if At(s, worker, Holding) && s.workers[worker].card in s.runs then
        var card := s.workers[worker].card;
        var entry := s.runs[card].id;
        var history := s.history[card := Newest([entry] + Entries(s.history, card))];
        Moved(s, worker, Recorded(history)).(
          history := history, runs := s.runs[card := s.runs[card].(recorded := true)],
          entered := s.entered + [entry], entries := s.entries[card := [entry] + Entries(s.entries, card)])
      else s
    case Persist(worker, ok) =>
      if worker in s.workers && s.workers[worker].place.Recorded? then
        Moved(s, worker, Done).(
          historyMutex := None, file := if ok then Some(s.workers[worker].place.snapshot) else s.file,
          writesFailed := s.writesFailed || !ok)
      else s
    case Close => s.(closed := true)
  }

  function After(s: State, actions: seq<Action>): State
    decreases |actions|
  {
    if actions == [] then s else Next(After(s, actions[..|actions| - 1]), actions[|actions| - 1])
  }

  // ---------------------------------------------------------------- the invariant

  /** The worker can still change a view or the history on behalf of its card. */
  predicate Active(worker: Worker) {
    worker.place in {Executing, Waiting, Holding}
  }

  ghost predicate WorkerFits(s: State, id: nat)
    requires id in s.workers
  {
    var worker := s.workers[id];
    && 0 < id <= s.nextID
    && worker.card in s.runs
    && (Active(worker) ==> s.runs[worker.card].id == id)
    && (s.runs[worker.card].id == id ==>
          (s.runs[worker.card].finished <==> worker.place != Executing) &&
          (s.runs[worker.card].recorded <==> !Active(worker)))
    && (worker.place == Holding || worker.place.Recorded? ==> s.historyMutex == Some(id))
    && (worker.place.Recorded? ==> worker.place.snapshot == s.history)
    && (id in s.entered <==> !Active(worker))
  }

  ghost predicate CardFits(s: State, card: Card)
    requires card in s.runs
  {
    s.runs[card].id in s.workers && s.workers[s.runs[card].id].card == card && s.runs[card].version <= s.version
  }

  ghost predicate HistoryFits(s: State, card: Card) {
    if card in s.entries
    then card in s.history && s.history[card] == Newest(s.entries[card] + Entries(s.loaded, card))
    else Entries(s.history, card) == Entries(s.loaded, card)
  }

  ghost predicate MutexFits(s: State) {
    match s.historyMutex
    case None => true
    case Some(id) => id in s.workers && (s.workers[id].place == Holding || s.workers[id].place.Recorded?)
  }

  /** No worker is between its recording and its file write. */
  ghost predicate NotRecording(s: State) {
    s.historyMutex.None? || (s.historyMutex.value in s.workers && s.workers[s.historyMutex.value].place == Holding)
  }

  ghost predicate Inv(s: State) {
    && (forall id {:trigger WorkerFits(s, id)} | id in s.workers :: WorkerFits(s, id))
    && (forall card {:trigger CardFits(s, card)} | card in s.runs :: CardFits(s, card))
    && (forall card {:trigger HistoryFits(s, card)} :: HistoryFits(s, card))
    && MutexFits(s)
    && (forall write | write in s.writes :: write.worker == write.target)
    && (forall id | id in s.entered :: id in s.workers)
    && NoDuplicates(s.entered)
    && (NotRecording(s) && s.entered != [] && !s.writesFailed ==> s.file == Some(s.history))
  }

  lemma InitialInv(loaded: History)
    ensures Inv(Initial(loaded))
  {
  }

  lemma StartKeepsInv(s: State, card: Card)
    requires Inv(s)
    ensures Inv(Next(s, Start(card)))
  {
    var t := Next(s, Start(card));
    if t != s {
      if card in s.runs {
        assert CardFits(s, card);
        assert WorkerFits(s, s.runs[card].id);
      }
      forall id | id in t.workers ensures WorkerFits(t, id) {
        if id in s.workers { assert WorkerFits(s, id); }
      }
      forall other | other in t.runs ensures CardFits(t, other) {
        if other != card { assert CardFits(s, other); assert WorkerFits(s, s.runs[other].id); }
      }
      forall other ensures HistoryFits(t, other) { assert HistoryFits(s, other); }
      assert forall id | id in s.workers :: WorkerFits(s, id) ==> id != t.nextID;
    }
  }

  lemma TouchKeepsInv(s: State, worker: nat, action: Action)
    requires Inv(s) && (action == Mutate(worker) || action == Finish(worker))
    ensures Inv(Next(s, action))
  {
    var t := Next(s, action);
    if t != s {
      assert WorkerFits(s, worker);
      var card := s.workers[worker].card;
      forall id | id in t.workers ensures WorkerFits(t, id) {
        assert WorkerFits(s, id);
      }
      forall other | other in t.runs ensures CardFits(t, other) { assert CardFits(s, other); }
      forall other ensures HistoryFits(t, other) { assert HistoryFits(s, other); }
    }
  }

  lemma LockKeepsInv(s: State, worker: nat)
    requires Inv(s)
    ensures Inv(Next(s, Lock(worker)))
  {
    var t := Next(s, Lock(worker));
    if t != s {
      assert WorkerFits(s, worker);
      forall id | id in t.workers ensures WorkerFits(t, id) { assert WorkerFits(s, id); }
      forall other | other in t.runs ensures CardFits(t, other) { assert CardFits(s, other); }
      forall other ensures HistoryFits(t, other) { assert HistoryFits(s, other); }
    }
  }

  lemma NewestOfNewest(entry: nat, entries: seq<nat>)
    ensures Newest([entry] + Newest(entries)) == Newest([entry] + entries)
  {
  }

  lemma RecordKeepsHistory(s: State, worker: nat, card: Card)
    requires HistoryFits(s, card) && At(s, worker, Holding) && s.workers[worker].card in s.runs
    ensures HistoryFits(Next(s, Record(worker)), card)
  {
    if card == s.workers[worker].card {
      var entry := s.runs[card].id;
      NewestOfNewest(entry, Entries(s.entries, card) + Entries(s.loaded, card));
      NewestOfNewest(entry, Entries(s.loaded, card));
      assert [entry] + (Entries(s.entries, card) + Entries(s.loaded, card)) ==
             ([entry] + Entries(s.entries, card)) + Entries(s.loaded, card);
      assert card !in s.entries ==> Entries(s.entries, card) + Entries(s.loaded, card) == Entries(s.loaded, card);
    }
  }

  lemma RecordKeepsWorkers(s: State, worker: nat, id: nat)
    requires WorkerFitsBoth(s, worker, id) && At(s, worker, Holding)
    ensures WorkerFits(Next(s, Record(worker)), id)
  {
  }

  ghost predicate WorkerFitsBoth(s: State, worker: nat, id: nat) {
    worker in s.workers && id in s.workers && WorkerFits(s, worker) && WorkerFits(s, id)
  }

  lemma RecordKeepsInv(s: State, worker: nat)
    requires Inv(s)
    ensures Inv(Next(s, Record(worker)))
  {
    var t := Next(s, Record(worker));
    if t != s {
      assert WorkerFits(s, worker);
      forall id | id in t.workers ensures WorkerFits(t, id) {
        assert WorkerFits(s, id);
        RecordKeepsWorkers(s, worker, id);
      }
      forall card | card in t.runs ensures CardFits(t, card) { assert CardFits(s, card); }
      forall card ensures HistoryFits(t, card) {
        assert HistoryFits(s, card);
        RecordKeepsHistory(s, worker, card);
      }
    }
  }

  lemma PersistKeepsInv(s: State, worker: nat, ok: bool)
    requires Inv(s)
    ensures Inv(Next(s, Persist(worker, ok)))
  {
    var t := Next(s, Persist(worker, ok));
    if t != s {
      assert WorkerFits(s, worker);
      forall id | id in t.workers ensures WorkerFits(t, id) { assert WorkerFits(s, id); }
      forall other | other in t.runs ensures CardFits(t, other) { assert CardFits(s, other); }
      forall other ensures HistoryFits(t, other) { assert HistoryFits(s, other); }
    }
  }

  lemma NextKeepsInv(s: State, action: Action)
    requires Inv(s)
    ensures Inv(Next(s, action))
  {
    match action
    case Start(card) => StartKeepsInv(s, card);
    case Mutate(worker) => TouchKeepsInv(s, worker, action);
    case Finish(worker) => TouchKeepsInv(s, worker, action);
    case Lock(worker) => LockKeepsInv(s, worker);
    case Record(worker) => RecordKeepsInv(s, worker);
    case Persist(worker, ok) => PersistKeepsInv(s, worker, ok);
    case Close =>
      var t := Next(s, Close);
      forall id | id in t.workers ensures WorkerFits(t, id) { assert WorkerFits(s, id); }
      forall other | other in t.runs ensures CardFits(t, other) { assert CardFits(s, other); }
      forall other ensures HistoryFits(t, other) { assert HistoryFits(s, other); }
  }

  lemma {:induction false} EveryRunKeepsInv(loaded: History, actions: seq<Action>)
    ensures Inv(After(Initial(loaded), actions))
    decreases |actions|
  {
    if actions == [] {
      InitialInv(loaded);
    } else {
      EveryRunKeepsInv(loaded, actions[..|actions| - 1]);
      NextKeepsInv(After(Initial(loaded), actions[..|actions| - 1]), actions[|actions| - 1]);
    }
  }

  // ---------------------------------------------------------------- what holds in every interleaving

  /** Each card has at most one worker that can still change it, and `Start` is refused exactly
      while there is one. */
  lemma OneWorkerPerCard(loaded: History, actions: seq<Action>, card: Card)
    ensures var s := After(Initial(loaded), actions);
            && (forall a, b | a in s.workers && b in s.workers && s.workers[a].card == s.workers[b].card == card
                              && Active(s.workers[a]) && Active(s.workers[b]) :: a == b)
            && (Conflict(s, card) <==> exists a :: a in s.workers && s.workers[a].card == card && Active(s.workers[a]))
  {
    EveryRunKeepsInv(loaded, actions);
    var s := After(Initial(loaded), actions);
    forall a | a in s.workers && s.workers[a].card == card && Active(s.workers[a])
      ensures card in s.runs && s.runs[card].id == a && Conflict(s, card)
    {
      assert WorkerFits(s, a);
    }
    if Conflict(s, card) {
      assert CardFits(s, card);
      assert WorkerFits(s, s.runs[card].id);
    }
  }

  /** Although views are addressed through the card, every change a worker makes lands on its own run. */
  lemma WritesStayOwn(loaded: History, actions: seq<Action>, i: nat)
    requires i < |After(Initial(loaded), actions).writes|
    ensures var write := After(Initial(loaded), actions).writes[i]; write.worker == write.target
  {
    EveryRunKeepsInv(loaded, actions);
  }

  /** A worker that is done entered its run into the history exactly once, and no other worker did. */
  lemma EnteredExactlyOnce(loaded: History, actions: seq<Action>, id: nat)
    requires id in After(Initial(loaded), actions).workers
    ensures var s := After(Initial(loaded), actions);
            && (s.workers[id].place == Done ==> exists i :: 0 <= i < |s.entered| && s.entered[i] == id)
            && (forall i, j | 0 <= i < |s.entered| && 0 <= j < |s.entered| && s.entered[i] == s.entered[j] == id ::
                i == j)
  {
    EveryRunKeepsInv(loaded, actions);
    assert WorkerFits(After(Initial(loaded), actions), id);
  }

  /** After any recording on a card its history holds the newest entries first, at most twelve, out
      of everything recorded and loaded. */
  lemma HistoryBounded(loaded: History, actions: seq<Action>, card: Card)
    requires card in After(Initial(loaded), actions).entries
    ensures var s := After(Initial(loaded), actions);
            var all := s.entries[card] + Entries(loaded, card);
            card in s.history && |s.history[card]| <= HISTORY_KEEP && s.history[card] <= all &&
            |s.history[card]| == if |all| < HISTORY_KEEP then |all| else HISTORY_KEEP
  {
    EveryRunKeepsInv(loaded, actions);
    assert HistoryFits(After(Initial(loaded), actions), card);
    LoadedNeverChanges(Initial(loaded), actions);
  }

  lemma {:induction false} LoadedNeverChanges(s: State, actions: seq<Action>)
    ensures After(s, actions).loaded == s.loaded
    decreases |actions|
  {
    if actions != [] {
      LoadedNeverChanges(s, actions[..|actions| - 1]);
      NextKeepsLoaded(After(s, actions[..|actions| - 1]), actions[|actions| - 1]);
    }
  }

  lemma NextKeepsLoaded(s: State, action: Action)
    ensures Next(s, action).loaded == s.loaded
  {
  }

  /** With successful writes the file equals the history in memory whenever the history mutex is
      free after a recording. */
  lemma FileMatchesMemory(loaded: History, actions: seq<Action>)
    ensures var s := After(Initial(loaded), actions);
            s.historyMutex.None? && s.entered != [] && !s.writesFailed ==> s.file == Some(s.history)
  {
    EveryRunKeepsInv(loaded, actions);
  }

  lemma StepVersions(s: State, action: Action, card: Card)
    requires card in s.runs ==> CardFits(s, card)
    ensures var t := Next(s, action);
            && s.version <= t.version
            && (card in s.runs ==> card in t.runs && s.runs[card].version <= s.version)
            && (card in t.runs && (card !in s.runs ||
                                   t.runs[card].(recorded := s.runs[card].recorded) != s.runs[card]) ==>
                  t.runs[card].version == t.version > s.version)
  {
  }

  /** A step gives a view a new state only together with a version above every earlier one. */
  lemma VersionsIncrease(loaded: History, actions: seq<Action>, action: Action, card: Card)
    ensures var s := After(Initial(loaded), actions);
            var t := Next(s, action);
            && s.version <= t.version
            && (card in s.runs ==> card in t.runs && s.runs[card].version <= s.version)
            && (card in t.runs && (card !in s.runs ||
                                   t.runs[card].(recorded := s.runs[card].recorded) != s.runs[card]) ==>
                  t.runs[card].version == t.version > s.version)
  {
    EveryRunKeepsInv(loaded, actions);
    StepVersions(After(Initial(loaded), actions), action, card);
  }
}
