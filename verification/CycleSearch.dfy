/** The three-colour depth-first search that rejects a cyclic workflow. */
module CycleSearch {
  import opened Outcomes
  import opened Graphs

  datatype Visit = Unseen | Visiting | Complete

  /** Every task comes after everything it waits for. */
  ghost predicate Ordered(g: Graph, order: seq<nat>) {
    && (forall i :: 0 <= i < |order| ==> order[i] < |g|)
    && (forall i, d :: 0 <= i < |order| && Edge(g, order[i], d) ==> d in order[..i])
  }

  /**
   * What holds between two steps of the search: the trail is the chain of the
   * tasks being visited, and the finished tasks stand in dependency order.
   */
  ghost predicate Consistent(g: Graph, states: seq<Visit>, trail: seq<nat>, finished: seq<nat>) {
    && |states| == |g|
    && (forall v :: 0 <= v < |g| ==> (states[v] == Visiting <==> v in trail))
    && (forall v :: 0 <= v < |g| ==> (states[v] == Complete <==> v in finished))
    && Distinct(trail) && IsPath(g, trail)
    && Ordered(g, finished)
  }

  ghost function UnseenTasks(states: seq<Visit>): set<nat> {
    set v: nat | v < |states| && states[v] == Unseen
  }

  lemma EnterKeeps(g: Graph, states: seq<Visit>, trail: seq<nat>, finished: seq<nat>, index: nat)
    requires Consistent(g, states, trail, finished)
    requires index < |g| && states[index] == Unseen
    requires trail != [] ==> index in g[trail[|trail| - 1]]
    ensures Consistent(g, states[index := Visiting], trail + [index], finished)
    ensures UnseenTasks(states[index := Visiting]) == UnseenTasks(states) - {index}
  {
    var longer := trail + [index];
    forall i | 0 <= i < |longer| - 1 ensures longer[i + 1] in g[longer[i]] {
      if i + 1 < |trail| { assert trail[i + 1] in g[trail[i]]; }
    }
    assert Distinct(longer);
  }

  lemma LeaveKeeps(g: Graph, states: seq<Visit>, trail: seq<nat>, finished: seq<nat>, index: nat)
    requires Consistent(g, states, trail + [index], finished)
    requires index < |g|
    requires forall d :: d in g[index] && d < |g| ==> d in finished
    ensures Consistent(g, states[index := Complete], trail, finished + [index])
    ensures UnseenTasks(states[index := Complete]) == UnseenTasks(states)
  {
    var longer := trail + [index];
    assert longer[|trail|] == index && index in longer;
    forall v | v in trail ensures v != index {
      var i :| 0 <= i < |trail| && trail[i] == v;
      assert longer[i] != longer[|trail|];
    }
    assert forall v :: v in longer <==> v in trail || v == index;
    assert Distinct(trail) by {
      assert forall i :: 0 <= i < |trail| ==> trail[i] == longer[i];
    }
    assert IsPath(g, trail) by {
      forall i | 0 <= i < |trail| ensures trail[i] < |g| {
        assert longer[i] < |g|;
      }
      forall i | 0 <= i < |trail| - 1 ensures trail[i + 1] in g[trail[i]] {
        assert longer[i + 1] in g[longer[i]];
      }
    }
    var order := finished + [index];
    forall i, d | 0 <= i < |order| && Edge(g, order[i], d) ensures d in order[..i] {
      if i < |finished| { assert order[..i] == finished[..i]; } else { assert order[..i] == finished; }
    }
  }

  /** A dependency that is on the trail closes a cycle. */
  lemma TrailCloses(g: Graph, trail: seq<nat>, start: nat, index: nat)
    requires Distinct(trail) && IsPath(g, trail)
    requires start < |trail| && trail[start] == index
    requires index in g[trail[|trail| - 1]]
    ensures IsCycle(g, trail[start..] + [index])
  {
    var cycle := trail[start..] + [index];
    forall i | 0 <= i < |cycle| - 1 ensures cycle[i + 1] in g[cycle[i]] {
      if start + i + 1 < |trail| {
        assert trail[(start + i) + 1] in g[trail[start + i]];
      }
    }
  }

  class Search {
    const dependencies: Graph
    const states: array<Visit>
    /** The tasks being visited, each a dependency of the one before it. */
    var trail: seq<nat>
    /** The tasks whose visit is over, in the order they ended. */
    ghost var finished: seq<nat>

    ghost predicate Valid()
      reads this, states
    {
      Consistent(dependencies, states[..], trail, finished)
    }

    constructor (dependencies: Graph)
      ensures this.dependencies == dependencies
      ensures Valid() && fresh(states) && trail == [] && finished == []
    {
      this.dependencies := dependencies;
      this.states := new Visit[|dependencies|](_ => Unseen);
      this.trail := [];
      this.finished := [];
    }

    /**
     * Visits one task after the last task of the trail. A position outside the
     * graph counts as visited. On success the trail is what it was; otherwise
     * the error is a cycle.
     */
    method Visit(index: nat) returns (r: Result<(), seq<nat>>)
      requires Valid()
      requires trail != [] ==> index in dependencies[trail[|trail| - 1]]
      modifies this, states
      ensures r.Ok? ==> Valid() && trail == old(trail)
      ensures r.Ok? ==> old(finished) <= finished
      ensures r.Ok? && index < |dependencies| ==> index in finished
      ensures r.Ok? ==> UnseenTasks(states[..]) <= old(UnseenTasks(states[..]))
      ensures r.Err? ==> IsCycle(dependencies, r.error)
      decreases UnseenTasks(states[..])
    {
      if index >= states.Length || states[index] == Complete {
        return Ok(());
      }
      if states[index] == Visiting {
        var start := 0;
        while trail[start] != index
          invariant 0 <= start < |trail|
          invariant index !in trail[..start]
          decreases |trail| - start
        {
          start := start + 1;
        }
        TrailCloses(dependencies, trail, start, index);
        return Err(trail[start..] + [index]);
      }

      EnterKeeps(dependencies, states[..], trail, finished, index);
      ghost var marked := states[..][index := Visiting];
      states[index] := Visiting;
      trail := trail + [index];
      assert states[..] == marked;

      var k := 0;
      while k < |dependencies[index]|
        invariant k <= |dependencies[index]|
        invariant Valid() && trail == old(trail) + [index]
        invariant old(finished) <= finished
        invariant forall i :: 0 <= i < k && dependencies[index][i] < |dependencies| ==> dependencies[index][i] in finished
        invariant UnseenTasks(states[..]) <= UnseenTasks(marked)
      {
        var visited := Visit(dependencies[index][k]);
        if visited.Err? {
          return visited;
        }
        k := k + 1;
      }

      LeaveKeeps(dependencies, states[..], old(trail), finished, index);
      ghost var left := states[..][index := Complete];
      trail := trail[..|trail| - 1];
      states[index] := Complete;
      finished := finished + [index];
      assert states[..] == left && trail == old(trail);
      r := Ok(());
    }
  }

  /** Answers Ok exactly for the graphs that have a rank, and a cycle for the others. */
  method ValidateAcyclic(dependencies: Graph) returns (r: Result<(), seq<nat>>)
    ensures r.Ok? <==> Acyclic(dependencies)
    ensures r.Err? ==> IsCycle(dependencies, r.error)
  {
    var search := new Search(dependencies);
    for position := 0 to |dependencies|
      invariant search.Valid() && search.trail == [] && search.dependencies == dependencies
      invariant fresh(search) && fresh(search.states)
      invariant forall v :: 0 <= v < position ==> v in search.finished
    {
      var visited := search.Visit(position);
      if visited.Err? {
        CycleExcludesRank(dependencies, visited.error);
        return visited;
      }
    }
    FinishedIsRank(dependencies, search.finished);
    r := Ok(());
  }

  ghost function PositionOf(order: seq<nat>, v: nat): (i: nat)
    requires v in order
    ensures i < |order| && order[i] == v && v !in order[..i]
  {
    if order[0] == v then 0
    else
      var i := PositionOf(order[1..], v) + 1;
      assert order[..i] == [order[0]] + order[1..][..i - 1];
      i
  }

  lemma FinishedIsRank(g: Graph, order: seq<nat>)
    requires Ordered(g, order)
    requires forall v :: 0 <= v < |g| ==> v in order
    ensures Acyclic(g)
  {
    var rank := seq(|g|, (v: nat) requires v in order => PositionOf(order, v));
    forall v: nat, d: nat | Edge(g, v, d) ensures rank[d] < rank[v] {
      assert order[rank[v]] == v;
      assert d in order[..rank[v]];
    }
    assert IsRank(g, rank);
  }
}
