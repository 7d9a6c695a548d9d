/** The greedy topological order of a flow card. */
module FlowOrder {
  import opened Wrappers

  datatype When = OnSuccess | OnFailure | Always | Unknown

  /** A node, the nodes it waits for, and the conditions of its own post steps. */
  datatype Node = Node(id: string, needs: seq<string>, posts: seq<When>)

  ghost predicate UniqueIDs(nodes: seq<Node>) {
    forall i, j | 0 <= i < j < |nodes| :: nodes[i].id != nodes[j].id
  }

  function IDs(nodes: seq<Node>): set<string> {
    set i | 0 <= i < |nodes| :: nodes[i].id
  }

  ghost predicate Needs(nodes: seq<Node>, dependent: string, need: string) {
    exists i | 0 <= i < |nodes| :: nodes[i].id == dependent && need in nodes[i].needs
  }

  ghost predicate NeedsExist(nodes: seq<Node>) {
    forall dependent, need | Needs(nodes, dependent, need) :: need in IDs(nodes)
  }

  /** Each ID on the path needs the next one. */
  ghost predicate IsWalk(nodes: seq<Node>, path: seq<string>) {
    forall k | 0 <= k < |path| - 1 :: StepAt(nodes, path, k)
  }

  ghost predicate StepAt(nodes: seq<Node>, path: seq<string>, k: nat)
    requires k < |path| - 1
  {
    Needs(nodes, path[k], path[k + 1])
  }

  ghost predicate IsCycle(nodes: seq<Node>, path: seq<string>) {
    2 <= |path| && IsWalk(nodes, path) && path[0] == path[|path| - 1]
  }

  ghost predicate Acyclic(nodes: seq<Node>) {
    forall path :: !IsCycle(nodes, path)
  }

  ghost predicate ListedBefore(order: seq<string>, k: nat, id: string) {
    exists j | 0 <= j < k && j < |order| :: order[j] == id
  }

  /** Every need of a listed node is listed before it. */
  ghost predicate NeedsFirst(nodes: seq<Node>, order: seq<string>) {
    forall k, need | 0 <= k < |order| && Needs(nodes, order[k], need) :: ListedBefore(order, k, need)
  }

  ghost predicate IsTopological(nodes: seq<Node>, order: seq<string>) {
    NoDuplicates(order) && NeedsFirst(nodes, order) && forall id :: id in order <==> id in IDs(nodes)
  }

  // ---------------------------------------------------------------- an order excludes cycles

  lemma {:induction false} WalkGoesBack(nodes: seq<Node>, order: seq<string>, path: seq<string>, k: nat)
    returns (first: nat, last: nat)
    requires NoDuplicates(order) && NeedsFirst(nodes, order)
    requires IsWalk(nodes, path) && 1 <= k < |path| && path[0] in order
    ensures last < first < |order| && order[first] == path[0] && order[last] == path[k]
    decreases k
  {
    if k == 1 {
      first :| 0 <= first < |order| && order[first] == path[0];
      assert StepAt(nodes, path, 0);
      last :| 0 <= last < first && order[last] == path[1];
    } else {
      var before;
      first, before := WalkGoesBack(nodes, order, path, k - 1);
      assert StepAt(nodes, path, k - 1);
      last :| 0 <= last < before && order[last] == path[k];
    }
  }

  lemma TopologicalIsAcyclic(nodes: seq<Node>, order: seq<string>)
    requires IsTopological(nodes, order)
    ensures Acyclic(nodes) && NeedsExist(nodes)
  {
    forall path ensures !IsCycle(nodes, path) {
      if IsCycle(nodes, path) {
        assert StepAt(nodes, path, 0);
        var first, last := WalkGoesBack(nodes, order, path, |path| - 1);
        assert false;
      }
    }
    forall dependent, need | Needs(nodes, dependent, need) ensures need in IDs(nodes) {
      assert dependent in IDs(nodes) && dependent in order;
      var k :| 0 <= k < |order| && order[k] == dependent;
      assert ListedBefore(order, k, need);
    }
  }

  // ---------------------------------------------------------------- a stuck round has a cycle

  /** Every ID that is left needs another one that is left. */
  ghost predicate Stuck(nodes: seq<Node>, left: set<string>) {
    left != {} && forall id {:trigger NeedsOneOf(nodes, id, left)} | id in left :: NeedsOneOf(nodes, id, left)
  }

  ghost predicate NeedsOneOf(nodes: seq<Node>, id: string, left: set<string>) {
    exists need :: need in left && Needs(nodes, id, need)
  }

  lemma {:induction false} WalkInside(nodes: seq<Node>, left: set<string>, length: nat) returns (path: seq<string>)
    requires Stuck(nodes, left)
    ensures |path| == length + 1 && IsWalk(nodes, path) && forall id | id in path :: id in left
  {
    if length == 0 {
      var id :| id in left;
      path := [id];
    } else {
      var shorter := WalkInside(nodes, left, length - 1);
      var last := shorter[length - 1];
      assert last in left && NeedsOneOf(nodes, last, left);
      var need :| need in left && Needs(nodes, last, need);
      path := shorter + [need];
      forall k | 0 <= k < |path| - 1 ensures StepAt(nodes, path, k) {
        if k < length - 1 { assert StepAt(nodes, shorter, k); }
      }
    }
  }

  lemma {:induction false} Pigeonhole(path: seq<string>, ids: set<string>) returns (i: nat, j: nat)
    requires |ids| < |path| && forall id | id in path :: id in ids
    ensures i < j < |path| && path[i] == path[j]
    decreases |path|
  {
    var last := |path| - 1;
    assert path[last] in path;
    if k :| 0 <= k < last && path[k] == path[last] {
      i, j := k, last;
    } else {
      var rest := ids - {path[last]};
      forall id | id in path[..last] ensures id in rest {
        var k :| 0 <= k < last && path[k] == id;
        assert path[k] in path;
      }
      i, j := Pigeonhole(path[..last], rest);
    }
  }

  lemma StuckHasCycle(nodes: seq<Node>, left: set<string>) returns (cycle: seq<string>)
    requires Stuck(nodes, left)
    ensures IsCycle(nodes, cycle) && forall id | id in cycle :: id in left
  {
    var path := WalkInside(nodes, left, |left|);
    var i, j := Pigeonhole(path, left);
    cycle := path[i..j + 1];
    forall k | 0 <= k < |cycle| - 1 ensures StepAt(nodes, cycle, k) {
      assert StepAt(nodes, path, i + k);
    }
  }

  ghost predicate Blocked(node: Node, done: set<string>) {
    exists need :: need in node.needs && need !in done
  }

  lemma BlockedStaysLeft(nodes: seq<Node>, done: set<string>, i: nat)
    requires NeedsExist(nodes) && i < |nodes| && Blocked(nodes[i], done)
    ensures NeedsOneOf(nodes, nodes[i].id, IDs(nodes) - done)
  {
    var need :| need in nodes[i].needs && need !in done;
    assert Needs(nodes, nodes[i].id, need);
  }

  /** When a whole round finds no ready node, a need is missing or there is a cycle. */
  lemma StuckRound(nodes: seq<Node>, done: set<string>)
    requires exists i | 0 <= i < |nodes| :: nodes[i].id !in done
    requires forall i | 0 <= i < |nodes| && nodes[i].id !in done :: Blocked(nodes[i], done)
    ensures !(NeedsExist(nodes) && Acyclic(nodes))
  {
    if NeedsExist(nodes) {
      var left := IDs(nodes) - done;
      forall id | id in left ensures NeedsOneOf(nodes, id, left) {
        var i :| 0 <= i < |nodes| && nodes[i].id == id;
        BlockedStaysLeft(nodes, done, i);
      }
      var i :| 0 <= i < |nodes| && nodes[i].id !in done;
      assert nodes[i].id in left;
      var cycle := StuckHasCycle(nodes, left);
    }
  }

  // ---------------------------------------------------------------- the algorithm

  ghost predicate Partial(nodes: seq<Node>, done: set<string>, order: seq<string>) {
    NoDuplicates(order) && NeedsFirst(nodes, order) && done <= IDs(nodes) && forall id :: id in order <==> id in done
  }

  lemma PartialExtends(nodes: seq<Node>, done: set<string>, order: seq<string>, i: nat)
    requires UniqueIDs(nodes) && Partial(nodes, done, order) && i < |nodes| && nodes[i].id !in done
    requires !Blocked(nodes[i], done)
    ensures Partial(nodes, done + {nodes[i].id}, order + [nodes[i].id])
  {
    var longer := order + [nodes[i].id];
    forall k, need | 0 <= k < |longer| && Needs(nodes, longer[k], need) ensures ListedBefore(longer, k, need) {
      if k < |order| {
        assert ListedBefore(order, k, need);
        var j :| 0 <= j < k && order[j] == need;
        assert longer[j] == need;
      } else {
        assert need in order;
        var j :| 0 <= j < |order| && order[j] == need;
        assert longer[j] == need;
      }
    }
  }

  /** `FlowTopologicalOrder`: true exactly when the needs exist and form no cycle, with an order that
      lists every node once and after its needs. */
  method TopologicalOrder(nodes: seq<Node>) returns (order: seq<string>, ok: bool)
    requires UniqueIDs(nodes)
    ensures ok <==> NeedsExist(nodes) && Acyclic(nodes)
    ensures ok ==> IsTopological(nodes, order)
    ensures NoDuplicates(order) && NeedsFirst(nodes, order) && forall id | id in order :: id in IDs(nodes)
  {
    order := [];
    var remaining, done := IDs(nodes), {};
    while remaining != {}
      invariant Partial(nodes, done, order) && remaining == IDs(nodes) - done
      decreases remaining
    {
      ghost var before := done;
      var i := 0;
      var progressed := false;
      while i < |nodes|
        invariant i <= |nodes| && Partial(nodes, done, order) && remaining == IDs(nodes) - done && before <= done
        invariant progressed <==> before != done
        invariant !progressed ==> forall k | 0 <= k < i && nodes[k].id !in done :: Blocked(nodes[k], done)
      {
        var node := nodes[i];
        if node.id !in done {
          var ready := Ready(node, done);
          if ready {
            PartialExtends(nodes, done, order, i);
            done, remaining, order, progressed := done + {node.id}, remaining - {node.id}, order + [node.id], true;
          }
        }
        i := i + 1;
      }
      if !progressed {
        var id :| id in remaining;
        assert exists k | 0 <= k < |nodes| :: nodes[k].id !in done;
        StuckRound(nodes, done);
        return order, false;
      }
    }
    TopologicalIsAcyclic(nodes, order);
    return order, true;
  }

  method Ready(node: Node, done: set<string>) returns (ready: bool)
    ensures ready <==> !Blocked(node, done)
  {
    var k := 0;
    while k < |node.needs|
      invariant k <= |node.needs| && forall j | 0 <= j < k :: node.needs[j] in done
    {
      if node.needs[k] !in done {
        assert node.needs[k] in node.needs;
        return false;
      }
      k := k + 1;
    }
    return true;
  }
}
