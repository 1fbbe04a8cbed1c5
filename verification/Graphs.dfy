/** Dependency graphs: `dependencies[v]` lists the positions task `v` waits for. */
module Graphs {
  type Graph = seq<seq<nat>>

  /** Position `d` is a real predecessor of `v`. */
  predicate Edge(g: Graph, v: nat, d: nat) {
    v < |g| && d < |g| && d in g[v]
  }

  /** Every task stands above the tasks it waits for. */
  ghost predicate IsRank(g: Graph, rank: seq<nat>) {
    |rank| == |g| && forall v: nat, d: nat :: Edge(g, v, d) ==> rank[d] < rank[v]
  }

  ghost predicate Acyclic(g: Graph) {
    exists rank :: IsRank(g, rank)
  }

  predicate Distinct<T(==)>(s: seq<T>) {
    forall i, j :: 0 <= i < j < |s| ==> s[i] != s[j]
  }

  /** Consecutive entries are dependency edges. */
  predicate IsPath(g: Graph, path: seq<nat>) {
    && (forall i :: 0 <= i < |path| ==> path[i] < |g|)
    && (forall i :: 0 <= i < |path| - 1 ==> path[i + 1] in g[path[i]])
  }

  /** A simple cycle, with its first task repeated last. */
  predicate IsCycle(g: Graph, cycle: seq<nat>) {
    |cycle| >= 2 && cycle[0] == cycle[|cycle| - 1] && IsPath(g, cycle) && Distinct(cycle[1..])
  }

  lemma {:induction false} RankFallsAlongPath(g: Graph, rank: seq<nat>, path: seq<nat>)
    requires IsRank(g, rank) && IsPath(g, path) && |path| >= 1
    ensures rank[path[|path| - 1]] + |path| <= rank[path[0]] + 1
  {
    if |path| > 1 {
      var rest := path[1..];
      assert IsPath(g, rest) by {
        forall i | 0 <= i < |rest| - 1 ensures rest[i + 1] in g[rest[i]] {
          assert path[i + 2] in g[path[i + 1]];
        }
      }
      RankFallsAlongPath(g, rank, rest);
      assert Edge(g, path[0], path[1]) by { assert path[0 + 1] in g[path[0]]; }
    }
  }

  lemma CycleExcludesRank(g: Graph, cycle: seq<nat>)
    requires IsCycle(g, cycle)
    ensures !Acyclic(g)
  {
    if Acyclic(g) {
      var rank :| IsRank(g, rank);
      RankFallsAlongPath(g, rank, cycle);
    }
  }
}
