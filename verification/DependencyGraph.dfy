/** Declared prerequisites as a graph, and why endless need means a cycle. */
module DependencyGraph {

  /** What each node needs. */
  type Edges = map<string, seq<string>>

  ghost predicate Needs(edges: Edges, a: string, b: string)
  {
    a in edges && b in edges[a]
  }

  ghost predicate StepAt(edges: Edges, walk: seq<string>, i: nat)
    requires 0 < i < |walk|
  {
    Needs(edges, walk[i - 1], walk[i])
  }

  /** Each node of the walk needs the next. */
  ghost predicate Walk(edges: Edges, walk: seq<string>)
  {
    forall i :: 0 < i < |walk| ==> StepAt(edges, walk, i)
  }

  /** A walk that comes back to where it started. */
  ghost predicate Cycle(edges: Edges, walk: seq<string>)
  {
    |walk| >= 2 && walk[0] == walk[|walk| - 1] && Walk(edges, walk)
  }

  ghost predicate NeedsSome(edges: Edges, a: string, ids: set<string>)
  {
    exists b :: b in ids && Needs(edges, a, b)
  }

  /** Each of the nodes needs another one of them. */
  ghost predicate AllNeedSome(edges: Edges, ids: set<string>)
  {
    forall a :: a in ids ==> NeedsSome(edges, a, ids)
  }

  lemma WalkOn(edges: Edges, walk: seq<string>, next: string)
    requires walk != [] && Walk(edges, walk) && Needs(edges, walk[|walk| - 1], next)
    ensures Walk(edges, walk + [next])
  {
    var longer := walk + [next];
    forall i | 0 < i < |longer| ensures StepAt(edges, longer, i) {
      if i < |walk| { assert StepAt(edges, walk, i); }
    }
  }

  ghost predicate Within(walk: seq<string>, ids: set<string>)
  {
    forall i :: 0 <= i < |walk| ==> walk[i] in ids
  }

  lemma {:induction false} LongWalk(edges: Edges, ids: set<string>, id: string, n: nat) returns (walk: seq<string>)
    requires AllNeedSome(edges, ids) && id in ids
    ensures |walk| == n + 1 && Walk(edges, walk) && Within(walk, ids)
  {
    if n == 0 {
      walk := [id];
    } else {
      walk := LongWalk(edges, ids, id, n - 1);
      assert NeedsSome(edges, walk[n - 1], ids);
      var next :| next in ids && Needs(edges, walk[n - 1], next);
      WalkOn(edges, walk, next);
      walk := walk + [next];
    }
  }

  lemma {:induction false} Pigeonhole(walk: seq<string>, ids: set<string>) returns (i: nat, j: nat)
    requires |walk| > |ids| && Within(walk, ids)
    ensures i < j < |walk| && walk[i] == walk[j]
    decreases |walk|
  {
    var n := |walk| - 1;
    if k :| 0 <= k < n && walk[k] == walk[n] {
      i, j := k, n;
    } else {
      i, j := Pigeonhole(walk[..n], ids - {walk[n]});
    }
  }

  lemma WalkPart(edges: Edges, walk: seq<string>, i: nat, j: nat)
    requires Walk(edges, walk) && i <= j <= |walk|
    ensures Walk(edges, walk[i..j])
  {
    forall k | 0 < k < j - i ensures StepAt(edges, walk[i..j], k) {
      assert StepAt(edges, walk, i + k);
    }
  }

  /** Finitely many nodes that each need another one of them contain a cycle. */
  lemma EndlessNeedIsCyclic(edges: Edges, ids: set<string>, id: string) returns (cycle: seq<string>)
    requires AllNeedSome(edges, ids) && id in ids
    ensures Cycle(edges, cycle) && Within(cycle, ids)
  {
    var walk := LongWalk(edges, ids, id, |ids|);
    var i, j := Pigeonhole(walk, ids);
    WalkPart(edges, walk, i, j + 1);
    cycle := walk[i..j + 1];
  }

  /** The nodes of a cycle each need another one of them. */
  lemma CycleIsEndless(edges: Edges, cycle: seq<string>, id: string) returns (next: string)
    requires Cycle(edges, cycle) && id in cycle
    ensures Needs(edges, id, next) && next in cycle
  {
    var i :| 0 <= i < |cycle| && cycle[i] == id;
    var m := if i < |cycle| - 1 then i + 1 else 1;
    assert StepAt(edges, cycle, m);
    next := cycle[m];
  }
}
