/** The planner's walks on integer positions and in levels: `selected_closure` with its
    cache, and the frontier that finds what to analyse. */
module PlanClosure {
  import opened Wrappers
  import opened KeyIndex
  import opened PlanSort

  predicate InRange(ids: seq<nat>, n: nat) {
    forall i | 0 <= i < |ids| :: ids[i] < n
  }

  /** The keys at these positions. */
  function KeysAt(selected: seq<Key>, ids: seq<nat>): (keys: seq<Key>)
    requires InRange(ids, |selected|)
    ensures |keys| == |ids| && forall i | 0 <= i < |ids| :: keys[i] == selected[ids[i]]
    ensures forall k <- keys :: k in selected
  {
    if ids == [] then [] else [selected[ids[0]]] + KeysAt(selected, ids[1..])
  }

  /** A node's position in a list it is in. */
  method IdOf(index: Index<nat>, ghost nodes: seq<Key>, key: Key) returns (id: nat)
    requires AllDistinct(nodes) && index == BuildKeyIndex(nodes) && key in nodes
    ensures id < |nodes| && nodes[id] == key
  {
    var found := FindId(index, nodes, key);
    id := found.value;
  }

  method IdsOf(index: Index<nat>, nodes: seq<Key>, keys: seq<Key>) returns (ids: seq<nat>)
    requires AllDistinct(nodes) && index == BuildKeyIndex(nodes) && forall k <- keys :: k in nodes
    ensures InRange(ids, |nodes|) && KeysAt(nodes, ids) == keys
  {
    ids := [];
    for i := 0 to |keys|
      invariant |ids| == i && forall j | 0 <= j < i :: ids[j] < |nodes| && nodes[ids[j]] == keys[j]
    {
      var id := IdOf(index, nodes, keys[i]);
      ids := ids + [id];
    }
  }

  ghost predicate Points(g: Graph, selected: seq<Key>, key: Key, ids: seq<nat>) {
    InRange(ids, |selected|) && KeysAt(selected, ids) == Edges(g, key)
  }

  /** Each node's dependencies as positions, in edge order. */
  ghost predicate Adjacent(g: Graph, selected: seq<Key>, adjacency: seq<seq<nat>>) {
    |adjacency| == |selected| && forall i | 0 <= i < |adjacency| :: Points(g, selected, selected[i], adjacency[i])
  }

  lemma EdgesIn(g: Graph, selected: seq<Key>, k: Key)
    requires Closed(g, Elements(selected)) && k in selected
    ensures forall d <- Edges(g, k) :: d in selected
  {
    forall d <- Edges(g, k)
      ensures d in Elements(selected)
    {
      assert k in Elements(selected);
    }
  }

  method PointersOf(index: Index<nat>, selected: seq<Key>, g: Graph, key: Key) returns (ids: seq<nat>)
    requires AllDistinct(selected) && Closed(g, Elements(selected)) && index == BuildKeyIndex(selected) && key in selected
    ensures Points(g, selected, key, ids)
  {
    EdgesIn(g, selected, key);
    ids := IdsOf(index, selected, Edges(g, key));
  }

  method BuildAdjacency(index: Index<nat>, selected: seq<Key>, g: Graph) returns (lists: seq<seq<nat>>)
    requires AllDistinct(selected) && Closed(g, Elements(selected)) && index == BuildKeyIndex(selected)
    ensures Adjacent(g, selected, lists)
  {
    hide AllDistinct, Closed, Points;
    lists := [];
    for i := 0 to |selected|
      invariant |lists| == i
      invariant forall j | 0 <= j < i :: Points(g, selected, selected[j], lists[j])
    {
      var ids := PointersOf(index, selected, g, selected[i]);
      lists := lists + [ids];
    }
  }

  /** The flags of a closure: the positions of the keys marked. */
  ghost predicate Flags(selected: seq<Key>, visited: array<bool>, marks: set<Key>)
    reads visited
  {
    visited.Length == |selected| && forall i | 0 <= i < |selected| :: visited[i] <==> selected[i] in marks
  }

  lemma KeysAtTail(selected: seq<Key>, ids: seq<nat>)
    requires InRange(ids, |selected|) && ids != []
    ensures InRange(ids[1..], |selected|)
    ensures KeysAt(selected, ids)[0] == selected[ids[0]] && KeysAt(selected, ids)[1..] == KeysAt(selected, ids[1..])
  {}

  lemma NoneMarked(g: Graph, selected: seq<Key>, marks: set<Key>, order: seq<Key>)
    requires Closed(g, Elements(selected))
    ensures MarkAll(g, Elements(selected), marks, order, []) == Marked(marks, order)
  {}

  lemma MarkedBefore(g: Graph, selected: seq<Key>, marks: set<Key>, order: seq<Key>, keys: seq<Key>)
    requires Closed(g, Elements(selected)) && (forall k <- keys :: k in selected) && keys != [] && keys[0] in marks
    ensures forall k <- keys[1..] :: k in selected
    ensures MarkAll(g, Elements(selected), marks, order, keys) == MarkAll(g, Elements(selected), marks, order, keys[1..])
  {}

  lemma MarkedNow(g: Graph, selected: seq<Key>, marks: set<Key>, order: seq<Key>, keys: seq<Key>)
    requires Closed(g, Elements(selected)) && (forall k <- keys :: k in selected) && keys != [] && keys[0] !in marks
    ensures (forall k <- keys[1..] :: k in selected) && (forall d <- Edges(g, keys[0]) :: d in selected)
    ensures var key := keys[0];
            var within := MarkAll(g, Elements(selected), marks + {key}, order, Edges(g, key));
            && MarkAll(g, Elements(selected), marks, order, keys) == MarkAll(g, Elements(selected), within.marks, within.order + [key], keys[1..])
            && |Elements(selected) - (marks + {key})| < |Elements(selected) - marks|
            && |Elements(selected) - within.marks| < |Elements(selected) - marks|
  {
    var key := keys[0];
    var within := MarkAll(g, Elements(selected), marks + {key}, order, Edges(g, key));
    Smaller(Elements(selected) - (marks + {key}), Elements(selected) - marks, key);
    Smaller(Elements(selected) - within.marks, Elements(selected) - marks, key);
  }

  lemma SelectedOnce(g: Graph, selected: seq<Key>)
    requires DepsFirst(g, selected)
    ensures AllDistinct(selected)
  {}

  /** What `assemble` keeps of a plan for its closures. */
  class Plan {
    const graph: Graph
    const selected: seq<Key>
    const keyIndex: Index<nat>
    const adjacency: seq<seq<nat>>
    const closures: array<Option<seq<Key>>>

    ghost predicate Valid()
      reads closures
    {
      && DepsFirst(graph, selected) && Closed(graph, Elements(selected))
      && keyIndex == BuildKeyIndex(selected)
      && Adjacent(graph, selected, adjacency) && closures.Length == |selected|
      && (forall i | 0 <= i < closures.Length ::
            match closures[i]
            case None => true
            case Some(deps) => deps == TransitiveDeps(graph, Elements(selected), selected[i]))
    }

    constructor (g: Graph, order: seq<Key>)
      requires DepsFirst(g, order)
      ensures Valid() && fresh(closures) && graph == g && selected == order
    {
      graph := g;
      selected := order;
      var index := BuildKeyIndex(order);
      keyIndex := index;
      DepsFirstClosed(g, order);
      var lists := BuildAdjacency(index, order, g);
      hide DepsFirst, Closed, Adjacent;
      adjacency := lists;
      closures := new Option<seq<Key>>[|order|](_ => None);
    }

    /** `List.foldl visit`, by positions. */
    method VisitIds(visited: array<bool>, ghost marks: set<Key>, start: seq<Key>, ids: seq<nat>) returns (order: seq<Key>, ghost marked: Marked)
      requires Valid() && InRange(ids, |selected|) && Flags(selected, visited, marks)
      modifies visited
      ensures marked == MarkAll(graph, Elements(selected), marks, start, KeysAt(selected, ids)) && order == marked.order
      ensures Flags(selected, visited, marked.marks)
      decreases |Elements(selected) - marks|, |ids|
    {
      hide DepsFirst, AllDistinct, MarkAll;
      if ids == [] {
        NoneMarked(graph, selected, marks, start);
        return start, Marked(marks, start);
      }
      var id := ids[0];
      var key := selected[id];
      KeysAtTail(selected, ids);
      if visited[id] {
        MarkedBefore(graph, selected, marks, start, KeysAt(selected, ids));
        order, marked := VisitIds(visited, marks, start, ids[1..]);
      } else {
        MarkedNow(graph, selected, marks, start, KeysAt(selected, ids));
        hide Closed, KeysAt, InRange;
        Flag(visited, id, marks);
        ghost var within;
        order, within := VisitIds(visited, marks + {key}, start, adjacency[id]);
        order, marked := VisitIds(visited, within.marks, order + [key], ids[1..]);
      }
    }

    method Flag(visited: array<bool>, id: nat, ghost marks: set<Key>)
      requires Valid() && id < |selected| && Flags(selected, visited, marks)
      modifies visited
      ensures Flags(selected, visited, marks + {selected[id]})
    {
      visited[id] := true;
    }

    method Closure(roots: seq<Key>) returns (order: seq<Key>)
      requires Valid() && forall k <- roots :: k in selected
      ensures order == SelectedClosure(graph, Elements(selected), roots)
    {
      var visited := new bool[|selected|](_ => false);
      var ids := IdsOf(keyIndex, selected, roots);
      ghost var marked;
      order, marked := VisitIds(visited, {}, [], ids);
    }

    /** `transitive_project_deps`: remembered or not, the same list. */
    method TransitiveProjectDeps(key: Key) returns (deps: seq<Key>)
      requires Valid() && key in selected
      modifies closures
      ensures Valid() && deps == TransitiveDeps(graph, Elements(selected), key)
    {
      hide DepsFirst, AllDistinct, Closed, Adjacent, SelectedClosure;
      assert AllDistinct(selected) by { SelectedOnce(graph, selected); }
      var id := IdOf(keyIndex, selected, key);
      match closures[id] {
        case Some(known) => deps := known;
        case None =>
          EdgesIn(graph, selected, key);
          deps := Closure(Unique(Edges(graph, key), {}));
          closures[id] := Some(deps);
      }
    }
  }

  // ------------------------------------------------------------ the frontier

  function Concatenated(g: Graph, keys: seq<Key>): (r: seq<Key>)
    ensures forall d :: d in r <==> exists k <- keys :: d in Edges(g, k)
  {
    if keys == [] then [] else
      assert keys == [keys[0]] + keys[1..];
      Edges(g, keys[0]) + Concatenated(g, keys[1..])
  }

  /** `take_fresh`: the nodes of the frontier not taken before, each once. */
  method TakeFresh(index: Index<nat>, ghost nodes: seq<Key>, expanded: array<bool>, ghost taken: seq<Key>, frontier: seq<Key>) returns (next: seq<Key>)
    requires AllDistinct(nodes) && index == BuildKeyIndex(nodes) && Tracks(nodes, expanded, taken)
    requires AllDistinct(taken) && forall k <- frontier :: k in nodes
    modifies expanded
    ensures Tracks(nodes, expanded, taken + next) && AllDistinct(taken + next)
    ensures forall k :: k in next <==> k in frontier && k !in taken
  {
    next := [];
    for i := 0 to |frontier|
      invariant Tracks(nodes, expanded, taken + next) && AllDistinct(taken + next)
      invariant forall k :: k in next <==> k in frontier[..i] && k !in taken
    {
      var key := frontier[i];
      assert key in frontier;
      assert frontier[..i + 1] == frontier[..i] + [key];
      var id := IdOf(index, nodes, key);
      if !expanded[id] {
        assert taken + next + [key] == taken + (next + [key]);
        Raise(expanded, id, nodes, taken + next);
        next := next + [key];
      }
    }
    assert frontier[..|frontier|] == frontier;
  }

  /** What has been expanded so far: only nodes reached, and every node reached is
      expanded, or comes up from the frontier. */
  ghost predicate Frontier(g: Graph, roots: seq<Key>, taken: seq<Key>, frontier: seq<Key>) {
    && (forall k <- taken :: Reached(g, roots, k))
    && (forall k <- frontier :: Reached(g, roots, k))
    && (forall k <- roots :: k in taken || k in frontier)
    && (forall k <- taken, d <- Edges(g, k) :: d in taken || d in frontier)
  }

  lemma ReachedOn(g: Graph, roots: seq<Key>, k: Key, d: Key)
    requires Reached(g, roots, k) && d in Edges(g, k)
    ensures Reached(g, roots, d)
  {
    var walk :| IsWalk(g, walk) && walk[0] in roots && walk[|walk| - 1] == k;
    var longer := walk + [d];
    assert IsWalk(g, longer) && longer[|longer| - 1] == d;
  }

  lemma RootsReached(g: Graph, roots: seq<Key>)
    ensures forall k <- roots :: Reached(g, roots, k)
  {
    forall k <- roots
      ensures Reached(g, roots, k)
    {
      assert IsWalk(g, [k]);
    }
  }

  /** One level: what the frontier has that is new, and their dependencies next. */
  lemma NextFrontier(g: Graph, roots: seq<Key>, taken: seq<Key>, frontier: seq<Key>, next: seq<Key>)
    requires Frontier(g, roots, taken, frontier)
    requires forall k :: k in next <==> k in frontier && k !in taken
    ensures Frontier(g, roots, taken + next, Concatenated(g, next))
  {
    forall d <- Concatenated(g, next)
      ensures Reached(g, roots, d)
    {
      var k :| k in next && d in Edges(g, k);
      ReachedOn(g, roots, k, d);
    }
  }

  lemma {:induction false} AllReached(g: Graph, roots: seq<Key>, taken: seq<Key>, walk: seq<Key>)
    requires Frontier(g, roots, taken, []) && IsWalk(g, walk) && walk[0] in roots
    ensures walk[|walk| - 1] in taken
  {
    if |walk| > 1 {
      var init := walk[..|walk| - 1];
      AllReached(g, roots, taken, init);
      assert walk[|walk| - 1] in Edges(g, init[|init| - 1]);
    }
  }

  lemma NoFrontierLeft(g: Graph, roots: seq<Key>, taken: seq<Key>)
    requires Frontier(g, roots, taken, Concatenated(g, []))
    ensures forall k :: k in taken <==> Reached(g, roots, k)
  {
    forall k | Reached(g, roots, k)
      ensures k in taken
    {
      var walk :| IsWalk(g, walk) && walk[0] in roots && walk[|walk| - 1] == k;
      AllReached(g, roots, taken, walk);
    }
  }

  lemma ConcatenatedIn(g: Graph, nodes: seq<Key>, keys: seq<Key>)
    requires Closed(g, Elements(nodes)) && forall k <- keys :: k in nodes
    ensures forall d <- Concatenated(g, keys) :: d in nodes
  {
    forall d <- Concatenated(g, keys)
      ensures d in nodes
    {
      var k :| k in keys && d in Edges(g, k);
      assert k in Elements(nodes);
      assert d in Elements(nodes);
    }
  }

  /** Between two levels. */
  ghost predicate Expanding(g: Graph, nodes: seq<Key>, roots: seq<Key>, expanded: array<bool>, taken: seq<Key>, frontier: seq<Key>)
    reads expanded
  {
    && Tracks(nodes, expanded, taken) && AllDistinct(taken)
    && (forall k <- frontier :: k in nodes)
    && Frontier(g, roots, taken, frontier)
  }

  /** One turn of `loop`. */
  method Level(index: Index<nat>, nodes: seq<Key>, roots: seq<Key>, g: Graph, expanded: array<bool>, taken: seq<Key>, frontier: seq<Key>) returns (next: seq<Key>)
    requires AllDistinct(nodes) && Closed(g, Elements(nodes)) && index == BuildKeyIndex(nodes)
    requires Expanding(g, nodes, roots, expanded, taken, frontier)
    modifies expanded
    ensures Expanding(g, nodes, roots, expanded, taken + next, Concatenated(g, next))
    ensures next != [] ==> |Elements(nodes) - Elements(taken + next)| < |Elements(nodes) - Elements(taken)|
  {
    next := TakeFresh(index, nodes, expanded, taken, frontier);
    NextFrontier(g, roots, taken, frontier, next);
    hide AllDistinct, Frontier, Tracks;
    ConcatenatedIn(g, nodes, next);
    if next != [] {
      assert next[0] in next;
      Smaller(Elements(nodes) - Elements(taken + next), Elements(nodes) - Elements(taken), next[0]);
    }
  }

  /** `bootstrap_reachable_frontier`: whatever cycles there are it ends, having
      analysed every node reachable from the roots, each once and no other. */
  method ReachableFrontier(nodes: seq<Key>, roots: seq<Key>, g: Graph) returns (prefetched: seq<Key>)
    requires AllDistinct(nodes) && Closed(g, Elements(nodes)) && forall k <- roots :: k in nodes
    ensures AllDistinct(prefetched) && forall k :: k in prefetched <==> Reached(g, roots, k)
  {
    RootsReached(g, roots);
    var index := BuildKeyIndex(nodes);
    var expanded := new bool[|nodes|](_ => false);
    prefetched := [];
    var next := Level(index, nodes, roots, g, expanded, prefetched, roots);
    prefetched := prefetched + next;
    hide Closed, Frontier, Tracks, Reached, AllDistinct, Concatenated;
    while next != []
      invariant Expanding(g, nodes, roots, expanded, prefetched, Concatenated(g, next))
      decreases |Elements(nodes) - Elements(prefetched)|, next != []
    {
      next := Level(index, nodes, roots, g, expanded, prefetched, Concatenated(g, next));
      if next == [] { assert prefetched + next == prefetched; }
      prefetched := prefetched + next;
    }
    NoFrontierLeft(g, roots, prefetched);
  }
}
