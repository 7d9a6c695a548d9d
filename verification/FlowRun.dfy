/** One run of a flow card: nodes in topological order, skipping below failures, post steps. */
module FlowRun {
  import opened FlowOrder
  import opened Wrappers

  datatype Status = Succeeded | Failed | Skipped

  /** `flowPostMatches`. */
  predicate Matches(condition: When, failed: bool) {
    condition == Always || (condition == OnFailure && failed) || (condition == OnSuccess && !failed)
  }

  /** What a run did, step by step; a post step runs to its end before anything else happens. */
  datatype Event =
    | Started(id: string)
    | Ended(id: string, ok: bool)
    | PostRan(id: string, index: nat, ok: bool)
    | Passed(id: string)
    | RunPost(index: nat, ok: bool)

  /** How the steps of a flow end. */
  datatype Outcomes = Outcomes(node: string -> bool, post: (string, nat) -> bool, runPost: nat -> bool)

  ghost predicate NeedsSucceeded(nodes: seq<Node>, results: map<string, Status>, id: string) {
    forall need | Needs(nodes, id, need) :: need in results && results[need] == Succeeded
  }

  /** The local rule: a node runs exactly when all its needs succeeded, and is skipped otherwise. */
  ghost predicate Decided(nodes: seq<Node>, outcome: string -> bool, results: map<string, Status>, id: string) {
    id in results &&
    results[id] == if !NeedsSucceeded(nodes, results, id) then Skipped else if outcome(id) then Succeeded else Failed
  }

  ghost predicate AllDecided(nodes: seq<Node>, outcome: string -> bool, results: map<string, Status>,
                             order: seq<string>, k: nat)
    requires k <= |order|
  {
    forall j {:trigger Decided(nodes, outcome, results, order[j])} | 0 <= j < k ::
        Decided(nodes, outcome, results, order[j])
  }

  ghost predicate Follows(nodes: seq<Node>, outcome: string -> bool, results: map<string, Status>) {
    results.Keys == IDs(nodes) &&
    forall id {:trigger Decided(nodes, outcome, results, id)} | id in results :: Decided(nodes, outcome, results, id)
  }

  // ---------------------------------------------------------------- what the rule means

  /** A chain of needs from a node to one that ran and failed. */
  ghost predicate LeadsToFailure(nodes: seq<Node>, results: map<string, Status>, path: seq<string>) {
    2 <= |path| && IsWalk(nodes, path) && path[|path| - 1] in results && results[path[|path| - 1]] == Failed
  }

  lemma {:induction false} SkippedHasFailedAncestor(
    nodes: seq<Node>, outcome: string -> bool, results: map<string, Status>, order: seq<string>, k: nat)
    returns (path: seq<string>)
    requires Follows(nodes, outcome, results) && IsTopological(nodes, order)
    requires k < |order| && results[order[k]] == Skipped
    ensures path != [] && path[0] == order[k] && LeadsToFailure(nodes, results, path)
    decreases k
  {
    var id := order[k];
    assert Decided(nodes, outcome, results, id);
    var need :| Needs(nodes, id, need) && !(need in results && results[need] == Succeeded);
    assert ListedBefore(order, k, need);
    var j :| 0 <= j < k && order[j] == need;
    assert order[j] == need && need in order;
    if results[need] == Failed {
      path := [id, need];
      assert StepAt(nodes, path, 0);
    } else {
      var rest := SkippedHasFailedAncestor(nodes, outcome, results, order, j);
      path := [id] + rest;
      LongerChain(nodes, results, id, rest);
    }
  }

  lemma LongerChain(nodes: seq<Node>, results: map<string, Status>, id: string, rest: seq<string>)
    requires LeadsToFailure(nodes, results, rest) && Needs(nodes, id, rest[0])
    ensures LeadsToFailure(nodes, results, [id] + rest)
  {
    var path := [id] + rest;
    forall i | 0 <= i < |path| - 1 ensures StepAt(nodes, path, i) {
      if i > 0 { assert StepAt(nodes, rest, i - 1); }
    }
  }

  lemma {:induction false} FailedAncestorSkips(
    nodes: seq<Node>, outcome: string -> bool, results: map<string, Status>, path: seq<string>)
    requires Follows(nodes, outcome, results) && LeadsToFailure(nodes, results, path)
    ensures path[0] in results && results[path[0]] == Skipped
    decreases |path|
  {
    assert StepAt(nodes, path, 0);
    assert path[0] in IDs(nodes) && Decided(nodes, outcome, results, path[0]);
    if |path| > 2 {
      forall i | 0 <= i < |path[1..]| - 1 ensures StepAt(nodes, path[1..], i) {
        assert StepAt(nodes, path, i + 1);
      }
      FailedAncestorSkips(nodes, outcome, results, path[1..]);
    }
  }

  /** On a flow without cycles a node is skipped exactly when some transitive ancestor ran and
      failed, and it runs exactly when all its needs succeeded. */
  lemma SkippedIffAncestorFailed(nodes: seq<Node>, outcome: string -> bool, results: map<string, Status>,
                                 order: seq<string>, id: string)
    requires Follows(nodes, outcome, results) && IsTopological(nodes, order) && id in IDs(nodes)
    ensures results[id] == Skipped <==>
              exists path :: path != [] && path[0] == id && LeadsToFailure(nodes, results, path)
    ensures results[id] != Skipped <==> NeedsSucceeded(nodes, results, id)
  {
    assert Decided(nodes, outcome, results, id);
    if results[id] == Skipped {
      assert id in order;
      var k :| 0 <= k < |order| && order[k] == id;
      var path := SkippedHasFailedAncestor(nodes, outcome, results, order, k);
    } else if path :| path != [] && path[0] == id && LeadsToFailure(nodes, results, path) {
      FailedAncestorSkips(nodes, outcome, results, path);
    }
  }

  /** The results do not depend on the topological order: the rule has one solution. */
  lemma {:induction false} ResultsUnique(
    nodes: seq<Node>, outcome: string -> bool, a: map<string, Status>, b: map<string, Status>, order: seq<string>,
    k: nat)
    requires Follows(nodes, outcome, a) && Follows(nodes, outcome, b) && IsTopological(nodes, order) && k <= |order|
    ensures forall i | 0 <= i < k :: order[i] in a && order[i] in b && a[order[i]] == b[order[i]]
    ensures k == |order| ==> a == b
    decreases k
  {
    if k > 0 {
      ResultsUnique(nodes, outcome, a, b, order, k - 1);
      var id := order[k - 1];
      assert id in order && Decided(nodes, outcome, a, id) && Decided(nodes, outcome, b, id);
      forall need | Needs(nodes, id, need)
        ensures (need in a && a[need] == Succeeded) <==> (need in b && b[need] == Succeeded)
      {
        assert ListedBefore(order, k - 1, need);
        var j :| 0 <= j < k - 1 && order[j] == need;
      }
    }
    if k == |order| {
      forall id | id in a.Keys ensures a[id] == b[id] {
        assert id in order;
      }
    }
  }

  ghost predicate AnyFailed(results: map<string, Status>) {
    exists id :: id in results && results[id] == Failed
  }

  lemma AnyFailedGrows(results: map<string, Status>, id: string, status: Status)
    requires id !in results
    ensures AnyFailed(results[id := status]) <==> AnyFailed(results) || status == Failed
  {
    if other :| other in results && results[other] == Failed {
      assert results[id := status][other] == Failed;
    } else if status == Failed {
      assert results[id := status][id] == Failed;
    }
  }

  /** Every node succeeded, or some node ran and failed. */
  lemma AllSucceededOrSomeFailed(nodes: seq<Node>, outcome: string -> bool, results: map<string, Status>,
                                 order: seq<string>)
    requires Follows(nodes, outcome, results) && IsTopological(nodes, order)
    ensures (forall id | id in results :: results[id] == Succeeded) <==> !AnyFailed(results)
  {
    if id :| id in results && results[id] == Skipped {
      assert id in order;
      var k :| 0 <= k < |order| && order[k] == id;
      var path := SkippedHasFailedAncestor(nodes, outcome, results, order, k);
    }
  }

  // ---------------------------------------------------------------- the record of a run

  /** What the results say must have happened. */
  ghost predicate Expected(nodes: seq<Node>, outcomes: Outcomes, results: map<string, Status>, event: Event) {
    match event
    case Started(id) => id in results && results[id] != Skipped
    case Ended(id, ok) => id in results && results[id] == if ok then Succeeded else Failed
    case Passed(id) => id in results && results[id] == Skipped
    case PostRan(id, index, ok) =>
      && id in results && results[id] != Skipped && HasPost(nodes, id, index, results[id] == Failed)
      && ok == outcomes.post(id, index)
    case RunPost(_, _) => false
  }

  ghost predicate HasPost(nodes: seq<Node>, id: string, index: nat, failed: bool) {
    exists i | 0 <= i < |nodes| ::
        nodes[i].id == id && index < |nodes[i].posts| && Matches(nodes[i].posts[index], failed)
  }

  ghost predicate Recorded(nodes: seq<Node>, outcomes: Outcomes, results: map<string, Status>, log: seq<Event>) {
    forall event :: event in log <==> Expected(nodes, outcomes, results, event)
  }

  /** The place of an event among those of its node. */
  function Turn(event: Event): nat {
    match event
    case Started(_) => 0
    case Passed(_) => 0
    case Ended(_, _) => 1
    case PostRan(_, index, _) => 2 + index
    case RunPost(index, _) => index
  }

  /** A node starts, ends, and runs its post steps in their order, each of these once. */
  ghost predicate TurnsInOrder(log: seq<Event>) {
    forall i, j | 0 <= i < j < |log| && !log[i].RunPost? && !log[j].RunPost? && log[i].id == log[j].id ::
      Turn(log[i]) < Turn(log[j])
  }

  /** Everything a node and its post steps do comes before any dependent starts. */
  ghost predicate DependentsWait(nodes: seq<Node>, log: seq<Event>) {
    forall i, j | 0 <= i < |log| && 0 <= j < |log| && log[i].Started? && !log[j].RunPost? &&
        Needs(nodes, log[i].id, log[j].id) ::
      j < i
  }

  /** A node's events in one piece: its end after its start, its post steps after its end. */
  ghost predicate Block(log: seq<Event>, id: string) {
    log != [] && (forall event | event in log :: !event.RunPost? && event.id == id) &&
    (log[0].Started? || log[0].Passed?) && (|log| > 1 ==> log[0].Started? && log[1].Ended?) &&
    (forall k | 2 <= k < |log| :: log[k].PostRan?) &&
    (forall j, k | 2 <= j < k < |log| :: log[j].index < log[k].index)
  }

  lemma BlockKeepsTurns(order: seq<string>, k: nat, log: seq<Event>, block: seq<Event>)
    requires NoDuplicates(order) && k < |order| && TurnsInOrder(log) && Block(block, order[k])
    requires forall event | event in log :: !event.RunPost? && ListedBefore(order, k, event.id)
    ensures TurnsInOrder(log + block)
  {
    var all := log + block;
    assert !ListedBefore(order, k, order[k]);
    assert forall i | 0 <= i < |log| :: all[i] in log;
    assert forall j | |log| <= j < |all| :: all[j] in block;
    forall i, j | 0 <= i < j < |all| && !all[i].RunPost? && !all[j].RunPost? && all[i].id == all[j].id
      ensures Turn(all[i]) < Turn(all[j])
    {
      if i >= |log| {
        BlockTurns(block, order[k], i - |log|, j - |log|);
      }
    }
  }

  lemma BlockTurns(block: seq<Event>, id: string, i: nat, j: nat)
    requires Block(block, id) && i < j < |block|
    ensures Turn(block[i]) < Turn(block[j])
  {
  }

  lemma BlockKeepsWaiting(nodes: seq<Node>, order: seq<string>, k: nat, log: seq<Event>, block: seq<Event>)
    requires NoDuplicates(order) && NeedsFirst(nodes, order) && k < |order|
    requires DependentsWait(nodes, log) && Block(block, order[k])
    requires forall event | event in log :: !event.RunPost? && ListedBefore(order, k, event.id)
    ensures DependentsWait(nodes, log + block)
    ensures forall event | event in log + block :: !event.RunPost? && ListedBefore(order, k + 1, event.id)
  {
    var all := log + block;
    forall id | ListedBefore(order, k + 1, id) ensures !Needs(nodes, id, order[k]) {
      NoEarlierDependent(nodes, order, k, id);
    }
    assert order[k] == order[k] && ListedBefore(order, k + 1, order[k]);
    assert forall id | ListedBefore(order, k, id) :: ListedBefore(order, k + 1, id);
    assert forall i | 0 <= i < |all| :: all[i] in all;
    assert forall j | |log| <= j < |all| :: all[j] in block;
  }

  lemma NoEarlierDependent(nodes: seq<Node>, order: seq<string>, k: nat, id: string)
    requires NoDuplicates(order) && NeedsFirst(nodes, order) && k < |order| && ListedBefore(order, k + 1, id)
    ensures !Needs(nodes, id, order[k])
  {
    var d :| 0 <= d <= k && order[d] == id;
    assert !ListedBefore(order, d, order[k]);
  }

  class FlowRun {
    const nodes: seq<Node>
    const posts: seq<When>
    const outcomes: Outcomes
    var results: map<string, Status>
    var log: seq<Event>
    var failed: bool

    constructor (nodes: seq<Node>, posts: seq<When>, outcomes: Outcomes)
      requires UniqueIDs(nodes)
      ensures this.nodes == nodes && this.posts == posts && this.outcomes == outcomes
      ensures results == map[] && log == [] && !failed
    {
      this.nodes, this.posts, this.outcomes := nodes, posts, outcomes;
      results, log, failed := map[], [], false;
    }

    /** `executePosts`: the post steps whose condition matches, in order. */
    method RunPosts(id: string, conditions: seq<When>, nodeFailed: bool) returns (ran: seq<nat>)
      ensures forall j, k | 0 <= j < k < |ran| :: ran[j] < ran[k]
      ensures forall k: nat :: k in ran <==> k < |conditions| && Matches(conditions[k], nodeFailed)
    {
      ran := [];
      for index := 0 to |conditions|
        invariant forall j, k | 0 <= j < k < |ran| :: ran[j] < ran[k]
        invariant forall k | 0 <= k < |ran| :: ran[k] < index
        invariant forall k: nat :: k in ran <==> k < index && Matches(conditions[k], nodeFailed)
      {
        if Matches(conditions[index], nodeFailed) {
          ran := ran + [index];  // however the step ends
        }
      }
    }

    method NeedMissing(node: Node) returns (missing: bool)
      ensures missing <==> exists need :: need in node.needs && !(need in results && results[need] == Succeeded)
    {
      var k := 0;
      while k < |node.needs|
        invariant k <= |node.needs|
        invariant forall j | 0 <= j < k :: node.needs[j] in results && results[node.needs[j]] == Succeeded
      {
        if !(node.needs[k] in results && results[node.needs[k]] == Succeeded) {
          assert node.needs[k] in node.needs;
          return true;
        }
        k := k + 1;
      }
      return false;
    }

    /** One node: skipped, or run to its end and then its matching post steps. */
    method RunNode(i: nat) returns (block: seq<Event>)
      requires UniqueIDs(nodes) && i < |nodes| && nodes[i].id !in results
      modifies this`results, this`failed
      ensures var node := nodes[i];
              && results == old(results)[node.id := Verdict(nodes, outcomes.node, old(results), node.id)]
              && failed == (old(failed) || results[node.id] == Failed)
              && Block(block, node.id)
              && forall event :: event in block <==> ExpectedOf(node, outcomes, results[node.id], event)
    {
      var node := nodes[i];
      var missing := NeedMissing(node);
      MissingNeed(nodes, results, i);
      if missing {
        results := results[node.id := Skipped];
        return [Passed(node.id)];
      }
      var ok := outcomes.node(node.id);
      results := results[node.id := if ok then Succeeded else Failed];
      failed := failed || !ok;
      var ran := RunPosts(node.id, node.posts, !ok);
      block := [Started(node.id), Ended(node.id, ok)] +
               seq(|ran|, k requires 0 <= k < |ran| => PostRan(node.id, ran[k], outcomes.post(node.id, ran[k])));
      forall event ensures event in block <==> ExpectedOf(node, outcomes, results[node.id], event) {
        if event.PostRan? && event.id == node.id && event.index in ran &&
            event.ok == outcomes.post(node.id, event.index) {
          var k :| 0 <= k < |ran| && ran[k] == event.index;
          assert block[k + 2] == event;
        }
        assert block[0] == Started(node.id) && block[1] == Ended(node.id, ok);
      }
    }

    /** `execute`: `graphEnd` marks where the record of the nodes ends and the run's own post steps
        begin.  How post steps end is recorded and never matters. */
    method Execute() returns (ok: bool, ghost order: seq<string>, ghost graphEnd: nat)
      requires UniqueIDs(nodes) && results == map[] && log == [] && !failed
      modifies this
      ensures NeedsExist(nodes) && Acyclic(nodes) ==>
                IsTopological(nodes, order) && Follows(nodes, outcomes.node, results)
      ensures ok == !failed && (failed <==> AnyFailed(results))
      ensures NeedsExist(nodes) && Acyclic(nodes) ==> (ok <==> forall id | id in IDs(nodes) :: results[id] == Succeeded)
      ensures graphEnd <= |log| && Recorded(nodes, outcomes, results, log[..graphEnd])
      ensures TurnsInOrder(log[..graphEnd]) && DependentsWait(nodes, log[..graphEnd])
      ensures RunPostsRecorded(posts, outcomes, !ok, log[graphEnd..])
    {
      var sorted, acyclic := TopologicalOrder(nodes);
      order := sorted;
      RunGraph(sorted);
      graphEnd := |log|;
      ok := !failed;
      if acyclic {
        AllSucceededOrSomeFailed(nodes, outcomes.node, results, sorted);
      }
      var ran := RunPosts("", posts, failed);
      ghost var graph := log;
      var last := seq(|ran|, k requires 0 <= k < |ran| => RunPost(ran[k], outcomes.runPost(ran[k])));
      RunPostsAre(posts, outcomes, failed, ran, last);
      log := log + last;
      assert log[..graphEnd] == graph && log[graphEnd..] == last;
    }

    /** The state after the first k nodes of the order. */
    ghost predicate Reached(order: seq<string>, k: nat)
      requires k <= |order|
      reads this
    {
      && (forall id :: id in results <==> ListedBefore(order, k, id))
      && AllDecided(nodes, outcomes.node, results, order, k)
      && (failed <==> AnyFailed(results))
      && Recorded(nodes, outcomes, results, log) && TurnsInOrder(log) && DependentsWait(nodes, log)
      && (forall event | event in log :: !event.RunPost? && ListedBefore(order, k, event.id))
    }

    method RunGraph(order: seq<string>)
      requires UniqueIDs(nodes) && results == map[] && log == [] && !failed
      requires NoDuplicates(order) && NeedsFirst(nodes, order) && forall id | id in order :: id in IDs(nodes)
      modifies this
      ensures Reached(order, |order|)
      ensures IsTopological(nodes, order) ==> Follows(nodes, outcomes.node, results)
    {
      for k := 0 to |order|
        invariant Reached(order, k)
      {
        RunNext(order, k);
      }
      forall id | id in results ensures Decided(nodes, outcomes.node, results, id) {
        var j :| 0 <= j < |order| && order[j] == id;
      }
    }

    method RunNext(order: seq<string>, k: nat)
      requires UniqueIDs(nodes) && k < |order| && Reached(order, k)
      requires NoDuplicates(order) && NeedsFirst(nodes, order) && forall id | id in order :: id in IDs(nodes)
      modifies this
      ensures Reached(order, k + 1)
    {
      assert order[k] in order;
      var i :| 0 <= i < |nodes| && nodes[i].id == order[k];
      ghost var before := results;
      assert !ListedBefore(order, k, order[k]);
      var block := RunNode(i);
      AnyFailedGrows(before, order[k], results[order[k]]);
      RecordGrows(nodes, outcomes, before, log, i, results[order[k]], block);
      BlockKeepsTurns(order, k, log, block);
      BlockKeepsWaiting(nodes, order, k, log, block);
      DecidedStays(nodes, outcomes.node, order, k, before, results);
      assert forall id :: ListedBefore(order, k + 1, id) <==> ListedBefore(order, k, id) || id == order[k];
      log := log + block;
    }
  }

  ghost function Verdict(nodes: seq<Node>, outcome: string -> bool, results: map<string, Status>, id: string): Status {
    if !NeedsSucceeded(nodes, results, id) then Skipped else if outcome(id) then Succeeded else Failed
  }

  lemma MissingNeed(nodes: seq<Node>, results: map<string, Status>, i: nat)
    requires UniqueIDs(nodes) && i < |nodes|
    ensures (exists need :: need in nodes[i].needs && !(need in results && results[need] == Succeeded))
            <==> !NeedsSucceeded(nodes, results, nodes[i].id)
  {
    if need :| need in nodes[i].needs && !(need in results && results[need] == Succeeded) {
      assert Needs(nodes, nodes[i].id, need);
    }
  }

  /** The events of one node with the given result. */
  ghost predicate ExpectedOf(node: Node, outcomes: Outcomes, status: Status, event: Event) {
    match event
    case Started(id) => id == node.id && status != Skipped
    case Ended(id, ok) => id == node.id && status == if ok then Succeeded else Failed
    case Passed(id) => id == node.id && status == Skipped
    case PostRan(id, index, ok) =>
      && id == node.id && status != Skipped && index < |node.posts| && Matches(node.posts[index], status == Failed)
      && ok == outcomes.post(id, index)
    case RunPost(_, _) => false
  }

  /** The run's own post steps: those that match, once and in their order. */
  ghost predicate RunPostsRecorded(posts: seq<When>, outcomes: Outcomes, failed: bool, log: seq<Event>) {
    && (forall k | 0 <= k < |log| :: log[k].RunPost?)
    && (forall j, k | 0 <= j < k < |log| :: Turn(log[j]) < Turn(log[k]))
    && forall index: nat, ok: bool :: RunPost(index, ok) in log <==>
         index < |posts| && Matches(posts[index], failed) && ok == outcomes.runPost(index)
  }

  lemma RunPostsAre(posts: seq<When>, outcomes: Outcomes, failed: bool, ran: seq<nat>, log: seq<Event>)
    requires forall j, k | 0 <= j < k < |ran| :: ran[j] < ran[k]
    requires forall k: nat :: k in ran <==> k < |posts| && Matches(posts[k], failed)
    requires |log| == |ran| && forall k | 0 <= k < |ran| :: log[k] == RunPost(ran[k], outcomes.runPost(ran[k]))
    ensures RunPostsRecorded(posts, outcomes, failed, log)
  {
    forall index: nat, ok: bool
      ensures RunPost(index, ok) in log <==>
              index < |posts| && Matches(posts[index], failed) && ok == outcomes.runPost(index)
    {
      if index in ran && ok == outcomes.runPost(index) {
        var j :| 0 <= j < |ran| && ran[j] == index;
        assert log[j] == RunPost(index, ok);
      }
      if RunPost(index, ok) in log {
        var j :| 0 <= j < |log| && log[j] == RunPost(index, ok);
        assert ran[j] in ran;
      }
    }
  }

  lemma RecordGrows(nodes: seq<Node>, outcomes: Outcomes, before: map<string, Status>, log: seq<Event>, i: nat,
                    status: Status, block: seq<Event>)
    requires UniqueIDs(nodes) && i < |nodes| && nodes[i].id !in before && Recorded(nodes, outcomes, before, log)
    requires forall event :: event in block <==> ExpectedOf(nodes[i], outcomes, status, event)
    ensures Recorded(nodes, outcomes, before[nodes[i].id := status], log + block)
  {
    var after := before[nodes[i].id := status];
    forall event ensures event in log + block <==> Expected(nodes, outcomes, after, event) {
      assert event in log + block <==>
             Expected(nodes, outcomes, before, event) || ExpectedOf(nodes[i], outcomes, status, event);
      if event.PostRan? && event.id == nodes[i].id {
        assert HasPost(nodes, event.id, event.index, status == Failed) <==>
               event.index < |nodes[i].posts| && Matches(nodes[i].posts[event.index], status == Failed);
      }
    }
  }

  lemma DecidedStays(nodes: seq<Node>, outcome: string -> bool, order: seq<string>, k: nat,
                     before: map<string, Status>, after: map<string, Status>)
    requires NoDuplicates(order) && NeedsFirst(nodes, order) && k < |order|
    requires forall id :: id in before <==> ListedBefore(order, k, id)
    requires AllDecided(nodes, outcome, before, order, k)
    requires after == before[order[k] := Verdict(nodes, outcome, before, order[k])]
    ensures AllDecided(nodes, outcome, after, order, k + 1)
  {
    assert !ListedBefore(order, k, order[k]);
    forall j | 0 <= j <= k ensures Decided(nodes, outcome, after, order[j]) {
      if j < k {
        assert ListedBefore(order, k, order[j]) && Decided(nodes, outcome, before, order[j]);
        DecidedEarlier(nodes, outcome, order, k, j, before, after);
      } else {
        SameNeeds(nodes, order, k, k, before, after);
      }
    }
  }

  lemma DecidedEarlier(nodes: seq<Node>, outcome: string -> bool, order: seq<string>, k: nat, j: nat,
                       before: map<string, Status>, after: map<string, Status>)
    requires NoDuplicates(order) && NeedsFirst(nodes, order) && j < k < |order|
    requires forall id | ListedBefore(order, k, id) :: id in before && id in after && before[id] == after[id]
    requires Decided(nodes, outcome, before, order[j])
    ensures Decided(nodes, outcome, after, order[j])
  {
    SameNeeds(nodes, order, k, j, before, after);
  }

  lemma SameNeeds(nodes: seq<Node>, order: seq<string>, k: nat, j: nat, before: map<string, Status>,
                  after: map<string, Status>)
    requires NoDuplicates(order) && NeedsFirst(nodes, order) && j <= k < |order|
    requires forall id | ListedBefore(order, k, id) :: id in before && id in after && before[id] == after[id]
    ensures NeedsSucceeded(nodes, before, order[j]) <==> NeedsSucceeded(nodes, after, order[j])
  {
    forall need | Needs(nodes, order[j], need) ensures ListedBefore(order, k, need) {
      assert ListedBefore(order, j, need);
    }
  }
}
