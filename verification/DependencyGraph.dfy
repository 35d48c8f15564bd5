/** Cycle detection over the dependency edges of a board
    (backend/app/services/task_dependencies.py). */
module DependencyGraph {
  import opened Prelude
  import opened BoardModel

  type Edges = map<TaskId, set<TaskId>>

  function Successors(edges: Edges, u: TaskId): set<TaskId> {
    if u in edges then edges[u] else {}
  }

  function EdgesOf(deps: Dependencies): Edges {
    map u | u in deps :: Elements(deps[u])
  }

  ghost predicate IsPath(edges: Edges, p: seq<TaskId>) {
    forall i :: 0 <= i < |p| - 1 ==> p[i + 1] in Successors(edges, p[i])
  }

  /** A walk that visits some task twice. */
  ghost predicate IsLoopedPath(edges: Edges, p: seq<TaskId>) {
    IsPath(edges, p) && !Distinct(p)
  }

  ghost predicate Acyclic(edges: Edges) {
    forall p :: !IsLoopedPath(edges, p)
  }

  ghost predicate LoopFrom(nodes: set<TaskId>, edges: Edges, p: seq<TaskId>) {
    |p| > 0 && p[0] in nodes && IsLoopedPath(edges, p)
  }

  ghost predicate CycleReachable(nodes: set<TaskId>, edges: Edges) {
    exists p :: LoopFrom(nodes, edges, p)
  }

  /** Every edge out of a listed task leads to a task listed earlier. */
  ghost predicate Ordered(edges: Edges, order: seq<TaskId>) {
    forall i, v :: 0 <= i < |order| && v in Successors(edges, order[i]) ==> v in order[..i]
  }

  lemma SuffixIsPath(edges: Edges, p: seq<TaskId>, k: nat)
    requires IsPath(edges, p) && k <= |p|
    ensures IsPath(edges, p[k..])
  {
    forall i | 0 <= i < |p[k..]| - 1 ensures p[k..][i + 1] in Successors(edges, p[k..][i]) {
      assert p[k + i + 1] in Successors(edges, p[k + i]);
    }
  }

  lemma {:induction false} OrderedWalkFalls(edges: Edges, order: seq<TaskId>, p: seq<TaskId>, i: nat, k: nat)
    returns (j: nat)
    requires Ordered(edges, order) && Distinct(order) && IsPath(edges, p)
    requires |p| > 0 && i < |order| && p[0] == order[i] && 0 < k < |p|
    ensures j < i && p[k] == order[j]
  {
    assert p[0 + 1] in Successors(edges, p[0]);
    assert p[1] in order[..i];
    var m :| 0 <= m < i && order[m] == p[1];
    if k == 1 {
      j := m;
    } else {
      var q := p[1..];
      SuffixIsPath(edges, p, 1);
      j := OrderedWalkFalls(edges, order, q, m, k - 1);
    }
  }

  /** A task list in which all edges point backwards rules out looped walks from it. */
  lemma OrderedHasNoLoop(edges: Edges, order: seq<TaskId>, p: seq<TaskId>)
    requires Ordered(edges, order) && Distinct(order)
    requires |p| > 0 && p[0] in order
    ensures !IsLoopedPath(edges, p)
  {
    if IsLoopedPath(edges, p) {
      var a, b :| 0 <= a < b < |p| && p[a] == p[b];
      var i :| 0 <= i < |order| && order[i] == p[0];
      var ia := i;
      if a > 0 {
        ia := OrderedWalkFalls(edges, order, p, i, a);
      }
      var q := p[a..];
      SuffixIsPath(edges, p, a);
      var jb := OrderedWalkFalls(edges, order, q, ia, b - a);
      assert false;
    }
  }

  lemma ReachableIffCyclic(nodes: set<TaskId>, edges: Edges)
    requires edges.Keys <= nodes
    ensures CycleReachable(nodes, edges) <==> !Acyclic(edges)
  {
    if !Acyclic(edges) {
      var p :| IsLoopedPath(edges, p);
      assert p[0 + 1] in Successors(edges, p[0]);
      assert LoopFrom(nodes, edges, p);
    }
  }

  /** Removing edges cannot create a loop. */
  lemma FewerEdgesStayAcyclic(edges: Edges, fewer: Edges)
    requires Acyclic(edges)
    requires forall u :: Successors(fewer, u) <= Successors(edges, u)
    ensures Acyclic(fewer)
  {
    forall p ensures !IsLoopedPath(fewer, p) {
      if IsLoopedPath(fewer, p) {
        forall i | 0 <= i < |p| - 1 ensures p[i + 1] in Successors(edges, p[i]) {
          assert p[i + 1] in Successors(fewer, p[i]);
        }
        assert IsLoopedPath(edges, p);
      }
    }
  }

  /** A task that nothing points to need not be a starting point. */
  lemma ReachableIffCyclicWithNewTask(nodes: set<TaskId>, edges: Edges, newTask: TaskId)
    requires edges.Keys <= nodes + {newTask}
    requires forall u :: newTask !in Successors(edges, u)
    ensures CycleReachable(nodes, edges) <==> !Acyclic(edges)
  {
    if !Acyclic(edges) {
      var p :| IsLoopedPath(edges, p);
      assert p[0 + 1] in Successors(edges, p[0]);
      if p[0] == newTask {
        var a, b :| 0 <= a < b < |p| && p[a] == p[b];
        assert p[b - 1 + 1] in Successors(edges, p[b - 1]);
        var q := p[1..];
        SuffixIsPath(edges, p, 1);
        assert q[a - 1] == q[b - 1];
        assert q[0 + 1] in Successors(edges, q[0]);
        assert LoopFrom(nodes, edges, q);
      } else {
        assert LoopFrom(nodes, edges, p);
      }
    }
  }

  /** The two sets that the nested `dfs` closure mutates. */
  class CycleDetector {
    const edges: Edges
    var visited: set<TaskId>
    var inStack: set<TaskId>
    ghost var order: seq<TaskId>  // tasks left by the search, in order of leaving

    ghost predicate Valid()
      reads this
    {
      && inStack <= visited
      && Elements(order) == visited - inStack
      && Distinct(order)
      && Ordered(edges, order)
    }

    constructor (edges: Edges)
      ensures Valid() && this.edges == edges && visited == {} && inStack == {}
    {
      this.edges := edges;
      visited, inStack, order := {}, {}, [];
    }

    /** Depth-first search from `current`, reached along `path`. */
    method Dfs(current: TaskId, ghost path: seq<TaskId>, ghost universe: set<TaskId>)
      returns (found: bool, ghost loop: seq<TaskId>)
      requires Valid() && Elements(path) == inStack && IsPath(edges, path + [current])
      requires visited <= universe && current in universe
      requires forall u :: u in universe ==> Successors(edges, u) <= universe
      modifies this
      decreases universe - visited
      ensures found ==> |loop| > 0 && loop[0] == (path + [current])[0] && IsLoopedPath(edges, loop)
      ensures !found ==> Valid() && inStack == old(inStack)
      ensures !found ==> old(visited) <= visited <= universe && current in order
      ensures !found ==> old(order) <= order
    {
      loop := [];
      if current in inStack {
        loop := path + [current];
        assert current in path;
        ghost var k :| 0 <= k < |path| && path[k] == current;
        assert loop[k] == loop[|path|];
        return true, loop;
      }
      if current in visited {
        assert current in Elements(order);
        return false, loop;
      }
      visited := visited + {current};
      inStack := inStack + {current};
      ghost var here := path + [current];
      var todo := Successors(edges, current);
      while todo != {}
        invariant Valid() && Elements(here) == inStack && inStack == old(inStack) + {current}
        invariant old(visited) + {current} <= visited <= universe
        invariant old(order) <= order && todo <= Successors(edges, current)
        invariant forall v :: v in Successors(edges, current) - todo ==> v in order
        decreases todo
      {
        var next :| next in todo;
        todo := todo - {next};
        assert here + [next] == path + [current] + [next];
        assert IsPath(edges, here + [next]) by {
          forall i | 0 <= i < |here + [next]| - 1
            ensures (here + [next])[i + 1] in Successors(edges, (here + [next])[i])
          {
            if i < |here| - 1 {
              assert here[i + 1] in Successors(edges, here[i]);
            }
          }
        }
        ghost var before := order;
        found, loop := Dfs(next, here, universe);
        if found {
          return;
        }
        assert forall v :: v in before ==> v in order;
      }
      inStack := inStack - {current};
      assert current !in Elements(order);
      ElementsSnoc(order, current);
      assert (order + [current])[..|order|] == order;
      assert forall i :: 0 <= i < |order| ==> (order + [current])[..i] == order[..i];
      order := order + [current];
      return false, loop;
    }

    /** `any(dfs(start) for start in nodes)`. */
    method HasCycle(nodes: set<TaskId>) returns (found: bool)
      requires Valid() && visited == {} && inStack == {}
      modifies this
      ensures found <==> CycleReachable(nodes, edges)
    {
      ghost var universe := nodes + edges.Keys + (set u, v | u in edges && v in edges[u] :: v);
      var todo := nodes;
      while todo != {}
        invariant Valid() && inStack == {} && todo <= nodes
        invariant visited <= universe
        invariant forall v :: v in nodes - todo ==> v in order
        decreases todo
      {
        var start :| start in todo;
        todo := todo - {start};
        ghost var loop;
        ghost var before := order;
        found, loop := Dfs(start, [], universe);
        if found {
          assert LoopFrom(nodes, edges, loop);
          return;
        }
        assert forall v :: v in before ==> v in order;
      }
      found := false;
      if CycleReachable(nodes, edges) {
        ghost var p :| LoopFrom(nodes, edges, p);
        OrderedHasNoLoop(edges, order, p);
      }
    }
  }
}
