/** The planner's walks of the resolved dependency graph, each stated on keys: the
    depth-first sort with its failures, and the closure that marks before it visits. */
module PlanSort {
  import opened Wrappers
  import opened Collections
  import opened KeyIndex

  type Graph = map<Key, seq<Key>>

  datatype Failure =
    | Missing(target: Key)    // no such node
    | Cycle(walk: seq<Key>)   // the walk from a root back to a node it passed

  datatype Outcome = Sorted(order: seq<Key>) | Failed(failure: Failure)

  /** `graph_values`: a node's dependencies in edge order. */
  function Edges(g: Graph, key: Key): seq<Key> {
    if key in g then g[key] else []
  }

  function Elements(keys: seq<Key>): set<Key> {
    set k | k in keys
  }

  function FirstMissing(nodes: set<Key>, keys: seq<Key>): (r: Option<Key>)
    ensures match r case Some(key) => key in keys && key !in nodes case None => forall k <- keys :: k in nodes
  {
    if keys == [] then None else if keys[0] !in nodes then Some(keys[0]) else FirstMissing(nodes, keys[1..])
  }

  // ------------------------------------------------------------ the sort

  /** `List.foldl visit`: the nodes in `order` are visited, those on `path` active. */
  function VisitAll(g: Graph, nodes: set<Key>, path: seq<Key>, order: seq<Key>, keys: seq<Key>): Outcome
    decreases |nodes - Elements(path)|, 1, |keys|
  {
    if keys == [] then Sorted(order)
    else
      match Visit(g, nodes, path, order, keys[0])
      case Failed(f) => Failed(f)
      case Sorted(order') => VisitAll(g, nodes, path, order', keys[1..])
  }

  function Visit(g: Graph, nodes: set<Key>, path: seq<Key>, order: seq<Key>, key: Key): Outcome
    decreases |nodes - Elements(path)|, 0, 0
  {
    if key !in nodes then Failed(Missing(key))
    else if key in order then Sorted(order)
    else if key in path then Failed(Cycle(path + [key]))
    else
      match FirstMissing(nodes, Edges(g, key))
      case Some(target) => Failed(Missing(target))
      case None =>
        assert nodes - Elements(path + [key]) == nodes - Elements(path) - {key};
        match VisitAll(g, nodes, path + [key], order, Edges(g, key))
        case Failed(f) => Failed(f)
        case Sorted(order') => Sorted(order' + [key])
  }

  /** `topo_sort_resolved` */
  function TopoSort(g: Graph, nodes: set<Key>, roots: seq<Key>): Outcome {
    VisitAll(g, nodes, [], [], roots)
  }

  // ------------------------------------------------------------ what a sort should be

  ghost predicate IsWalk(g: Graph, walk: seq<Key>) {
    walk != [] && forall i | 0 < i < |walk| :: walk[i] in Edges(g, walk[i - 1])
  }

  /** Some walk leads from one of `from` to `key`. */
  ghost predicate Reached(g: Graph, from: seq<Key>, key: Key) {
    exists walk :: IsWalk(g, walk) && walk[0] in from && walk[|walk| - 1] == key
  }

  /** Each node once, after all its dependencies. */
  ghost predicate DepsFirst(g: Graph, order: seq<Key>) {
    && AllDistinct(order)
    && forall i, d | 0 <= i < |order| && d in Edges(g, order[i]) :: d in order[..i]
  }

  ghost predicate IsPrefix(a: seq<Key>, b: seq<Key>) {
    |a| <= |b| && b[..|a|] == a
  }

  /** The path from a root to the node being visited: a walk, or nothing yet. */
  ghost predicate IsPath(g: Graph, roots: seq<Key>, path: seq<Key>, keys: seq<Key>) {
    if path == [] then forall k <- keys :: k in roots
    else IsWalk(g, path) && path[0] in roots && forall k <- keys :: k in Edges(g, path[|path| - 1])
  }

  /** What a failure shows: a walk from a root to a missing node, or back to a node it passed. */
  ghost predicate Justified(g: Graph, nodes: set<Key>, roots: seq<Key>, f: Failure) {
    match f
    case Missing(target) => target !in nodes && Reached(g, roots, target)
    case Cycle(walk) => IsWalk(g, walk) && walk[0] in roots && walk[|walk| - 1] in walk[..|walk| - 1]
  }

  lemma WalkSnoc(g: Graph, roots: seq<Key>, path: seq<Key>, keys: seq<Key>, key: Key)
    requires IsPath(g, roots, path, keys) && key in keys
    ensures IsWalk(g, path + [key]) && (path + [key])[0] in roots
    ensures Reached(g, roots, key)
    ensures IsPath(g, roots, path + [key], Edges(g, key))
  {
    var walk := path + [key];
    assert walk[|walk| - 1] == key;
  }

  /** What visiting adds: the nodes asked for, each after its dependencies, and only
      nodes reachable from the roots. */
  ghost predicate Extends(g: Graph, nodes: set<Key>, roots: seq<Key>, order: seq<Key>, after: seq<Key>, keys: seq<Key>) {
    && IsPrefix(order, after)
    && DepsFirst(g, after)
    && (forall k <- keys :: k in after)
    && (forall k <- after :: k in nodes && Reached(g, roots, k))
  }

  ghost predicate Good(g: Graph, nodes: set<Key>, roots: seq<Key>, order: seq<Key>, outcome: Outcome, keys: seq<Key>) {
    match outcome
    case Sorted(after) => Extends(g, nodes, roots, order, after, keys)
    case Failed(f) => Justified(g, nodes, roots, f)
  }

  /** Nothing on the path is listed. */
  ghost predicate PathOpen(path: seq<Key>, outcome: Outcome) {
    match outcome case Sorted(after) => (forall k <- path :: k !in after) case Failed(_) => true
  }

  lemma {:induction false} VisitAllGood(g: Graph, nodes: set<Key>, roots: seq<Key>, path: seq<Key>, order: seq<Key>, keys: seq<Key>)
    requires IsPath(g, roots, path, keys)
    requires Extends(g, nodes, roots, order, order, []) && (forall k <- path :: k !in order)
    ensures Good(g, nodes, roots, order, VisitAll(g, nodes, path, order, keys), keys)
    ensures PathOpen(path, VisitAll(g, nodes, path, order, keys))
    decreases |nodes - Elements(path)|, 1, |keys|
  {
    hide IsPath, DepsFirst, Reached, Justified;
    if keys != [] {
      VisitGood(g, nodes, roots, path, order, keys, keys[0]);
      match Visit(g, nodes, path, order, keys[0])
      case Failed(_) =>
      case Sorted(order') =>
        PathTail(g, roots, path, keys);
        VisitAllGood(g, nodes, roots, path, order', keys[1..]);
        match VisitAll(g, nodes, path, order', keys[1..])
        case Failed(_) =>
        case Sorted(after) =>
          assert after[..|order|] == after[..|order'|][..|order|];
          assert keys[0] in after[..|order'|];
          assert forall k <- keys :: k == keys[0] || k in keys[1..];
    }
  }

  lemma PathTail(g: Graph, roots: seq<Key>, path: seq<Key>, keys: seq<Key>)
    requires IsPath(g, roots, path, keys) && keys != []
    ensures IsPath(g, roots, path, keys[1..])
  {
    assert forall k <- keys[1..] :: k in keys;
  }

  lemma {:induction false} VisitGood(g: Graph, nodes: set<Key>, roots: seq<Key>, path: seq<Key>, order: seq<Key>, keys: seq<Key>, key: Key)
    requires IsPath(g, roots, path, keys) && key in keys
    requires Extends(g, nodes, roots, order, order, []) && (forall k <- path :: k !in order)
    ensures Good(g, nodes, roots, order, Visit(g, nodes, path, order, key), [key])
    ensures PathOpen(path, Visit(g, nodes, path, order, key))
    decreases |nodes - Elements(path)|, 0, 0
  {
    WalkSnoc(g, roots, path, keys, key);
    if key in nodes && key !in order {
      if key in path {
        assert (path + [key])[..|path|] == path;
      } else {
        match FirstMissing(nodes, Edges(g, key))
        case Some(target) => WalkSnoc(g, roots, path + [key], Edges(g, key), target);
        case None =>
          assert nodes - Elements(path + [key]) == nodes - Elements(path) - {key};
          VisitAllGood(g, nodes, roots, path + [key], order, Edges(g, key));
          match VisitAll(g, nodes, path + [key], order, Edges(g, key))
          case Failed(_) =>
          case Sorted(order') =>
            assert key in path + [key];
            Listed(g, nodes, roots, order, order', key);
            assert forall k <- path :: k in path + [key];
      }
    }
  }

  lemma Listed(g: Graph, nodes: set<Key>, roots: seq<Key>, order: seq<Key>, order': seq<Key>, key: Key)
    requires Extends(g, nodes, roots, order, order', Edges(g, key)) && key !in order' && key in nodes && Reached(g, roots, key)
    ensures Extends(g, nodes, roots, order, order' + [key], [key])
  {
    var after := order' + [key];
    assert after[..|order|] == order'[..|order|];
    forall i, d | 0 <= i < |after| && d in Edges(g, after[i])
      ensures d in after[..i]
    {
      assert after[..i] == order'[..i];
    }
  }

  // ------------------------------------------------------------ the main theorem of the sort

  /** A walk that starts in a deps-first list stays in it, each step earlier than the last. */
  lemma {:induction false} WalkDescends(g: Graph, order: seq<Key>, walk: seq<Key>) returns (at: seq<nat>)
    requires DepsFirst(g, order) && IsWalk(g, walk) && walk[0] in order
    ensures |at| == |walk|
    ensures forall i | 0 <= i < |walk| :: at[i] < |order| && order[at[i]] == walk[i]
    ensures forall i | 0 <= i < |walk| - 1 :: at[|walk| - 1] < at[i]
  {
    var n := |walk| - 1;
    if n == 0 {
      var j :| 0 <= j < |order| && order[j] == walk[0];
      at := [j];
    } else {
      var init := WalkDescends(g, order, walk[..n]);
      assert walk[n] in Edges(g, walk[n - 1]);
      assert walk[n] in order[..init[n - 1]];
      var j :| 0 <= j < init[n - 1] && order[j] == walk[n];
      at := init + [j];
    }
  }

  /** The sort succeeds exactly when every walk from a root stays within the nodes and
      comes back to none it passed: no reachable cycle, and no reachable target missing. */
  ghost predicate Sortable(g: Graph, nodes: set<Key>, roots: seq<Key>) {
    forall walk | IsWalk(g, walk) && walk[0] in roots ::
      walk[|walk| - 1] in nodes && walk[|walk| - 1] !in walk[..|walk| - 1]
  }

  /** It lists each node reachable from the roots once, dependencies first, and nothing
      else; and it fails, with a walk to show for it, exactly when it must. */
  lemma TopoSortCorrect(g: Graph, nodes: set<Key>, roots: seq<Key>)
    ensures match TopoSort(g, nodes, roots)
            case Sorted(order) => DepsFirst(g, order) && (forall k :: k in order <==> Reached(g, roots, k)) && Sortable(g, nodes, roots)
            case Failed(f) => Justified(g, nodes, roots, f) && !Sortable(g, nodes, roots)
  {
    VisitAllGood(g, nodes, roots, [], [], roots);
    match TopoSort(g, nodes, roots)
    case Sorted(order) =>
      forall walk | IsWalk(g, walk) && walk[0] in roots
        ensures walk[|walk| - 1] in order && walk[|walk| - 1] !in walk[..|walk| - 1]
      {
        var at := WalkDescends(g, order, walk);
      }
    case Failed(f) => JustifiedFailure(g, nodes, roots, f);
  }

  lemma JustifiedFailure(g: Graph, nodes: set<Key>, roots: seq<Key>, f: Failure)
    requires Justified(g, nodes, roots, f)
    ensures !Sortable(g, nodes, roots)
  {
    match f
    case Missing(target) =>
      var walk :| IsWalk(g, walk) && walk[0] in roots && walk[|walk| - 1] == target;
    case Cycle(walk) =>
  }

  // ------------------------------------------------------------ the closure

  /** A closure's marks and list. */
  datatype Marked = Marked(marks: set<Key>, order: seq<Key>)

  /** The selection is closed under its dependencies. */
  ghost predicate Closed(g: Graph, selected: set<Key>) {
    forall k <- selected, d <- Edges(g, k) :: d in selected
  }

  /** `List.foldl visit` of `selected_closure`: it marks a node, then visits its
      dependencies, then lists it, and looks out for no cycle. */
  function MarkAll(g: Graph, selected: set<Key>, marks: set<Key>, order: seq<Key>, keys: seq<Key>): (r: Marked)
    requires Closed(g, selected) && forall k <- keys :: k in selected
    ensures marks <= r.marks
    decreases |selected - marks|, |keys|
  {
    if keys == [] then Marked(marks, order)
    else if keys[0] in marks then MarkAll(g, selected, marks, order, keys[1..])
    else
      var key := keys[0];
      assert selected - (marks + {key}) == selected - marks - {key};
      var inner := MarkAll(g, selected, marks + {key}, order, Edges(g, key));
      Smaller(selected - inner.marks, selected - marks, key);
      MarkAll(g, selected, inner.marks, inner.order + [key], keys[1..])
  }

  lemma Smaller(a: set<Key>, b: set<Key>, key: Key)
    requires a <= b && key in b && key !in a
    ensures |a| < |b|
  {
    ProperSubset(a, b);
  }

  function SelectedClosure(g: Graph, selected: set<Key>, roots: seq<Key>): seq<Key>
    requires Closed(g, selected) && forall k <- roots :: k in selected
  {
    MarkAll(g, selected, {}, [], roots).order
  }

  /** Where a key stands in a list. */
  function Position(order: seq<Key>, key: Key): (i: nat)
    ensures i <= |order|
    ensures key in order ==> i < |order| && order[i] == key
    ensures key !in order ==> i == |order|
  {
    if order == [] || order[0] == key then 0 else 1 + Position(order[1..], key)
  }

  /** All of `keys` are selected, and stand before all of `path`. */
  ghost predicate Before(selected: seq<Key>, keys: seq<Key>, path: seq<Key>) {
    forall k <- keys :: k in selected && forall p <- path :: Position(selected, k) < Position(selected, p)
  }

  lemma EdgesBefore(g: Graph, selected: seq<Key>, keys: seq<Key>, path: seq<Key>, key: Key)
    requires DepsFirst(g, selected) && Before(selected, keys, path) && key in keys
    ensures Before(selected, Edges(g, key), path + [key])
  {
    var i := Position(selected, key);
    forall d | d in Edges(g, key)
      ensures d in selected && Position(selected, d) < i
    {
      assert d in selected[..i];
      var j :| 0 <= j < i && selected[j] == d;
      assert Position(selected, d) == j;
    }
  }

  lemma DepsFirstClosed(g: Graph, selected: seq<Key>)
    requires DepsFirst(g, selected)
    ensures Closed(g, Elements(selected))
  {
    forall k <- selected, d <- Edges(g, k)
      ensures d in selected
    {
      var i := Position(selected, k);
      assert d in selected[..i];
    }
  }

  /** Of the selected nodes, those listed and those on the path are different ones. */
  ghost predicate Apart(selected: seq<Key>, path: seq<Key>, order: seq<Key>) {
    (forall k <- order :: k in selected) && forall p <- path :: p !in order && p in selected
  }

  /** The two walks do the same: the sort succeeds, and the closure has marked what
      the sort has listed and the path. */
  ghost predicate SameWalk(g: Graph, nodes: set<Key>, selected: seq<Key>, path: seq<Key>, order: seq<Key>, keys: seq<Key>)
    requires Closed(g, Elements(selected)) && forall k <- keys :: k in selected
  {
    match VisitAll(g, nodes, path, order, keys)
    case Failed(_) => false
    case Sorted(after) =>
      && MarkAll(g, Elements(selected), Elements(order) + Elements(path), order, keys) == Marked(Elements(after) + Elements(path), after)
      && (forall k <- after :: k in selected && k !in path)
      && Elements(order) <= Elements(after)
  }

  lemma NothingToWalk(g: Graph, nodes: set<Key>, selected: seq<Key>, path: seq<Key>, order: seq<Key>)
    requires Closed(g, Elements(selected))
    requires forall k <- order :: k in selected && k !in path
    ensures SameWalk(g, nodes, selected, path, order, [])
  {}

  lemma WalkedBefore(g: Graph, nodes: set<Key>, selected: seq<Key>, path: seq<Key>, order: seq<Key>, keys: seq<Key>)
    requires Closed(g, Elements(selected)) && (forall k <- keys :: k in selected) && keys != [] && keys[0] in order && keys[0] in nodes
    requires SameWalk(g, nodes, selected, path, order, keys[1..])
    ensures SameWalk(g, nodes, selected, path, order, keys)
  {}

  lemma WalkedNow(g: Graph, nodes: set<Key>, selected: seq<Key>, path: seq<Key>, order: seq<Key>, keys: seq<Key>, after: seq<Key>)
    requires Closed(g, Elements(selected)) && (forall k <- keys :: k in selected) && Elements(selected) <= nodes
    requires keys != [] && keys[0] !in order && keys[0] !in path
    requires VisitAll(g, nodes, path + [keys[0]], order, Edges(g, keys[0])) == Sorted(after)
    requires forall d <- Edges(g, keys[0]) :: d in selected
    requires SameWalk(g, nodes, selected, path + [keys[0]], order, Edges(g, keys[0]))
    requires SameWalk(g, nodes, selected, path, after + [keys[0]], keys[1..])
    ensures SameWalk(g, nodes, selected, path, order, keys)
  {
    var key := keys[0];
    assert Elements(order) + Elements(path + [key]) == Elements(order) + Elements(path) + {key};
    assert Elements(after) + Elements(path + [key]) == Elements(after + [key]) + Elements(path);
    assert Visit(g, nodes, path, order, key) == Sorted(after + [key]);
  }

  /** In a deps-first selection marking early changes nothing: the nodes marked and not
      yet listed are those on the path, and no visit comes back to them. */
  lemma {:induction false} MarkingEarly(g: Graph, nodes: set<Key>, selected: seq<Key>, path: seq<Key>, order: seq<Key>, keys: seq<Key>)
    requires DepsFirst(g, selected) && Elements(selected) <= nodes
    requires Before(selected, keys, path) && Apart(selected, path, order)
    ensures Closed(g, Elements(selected))
    ensures SameWalk(g, nodes, selected, path, order, keys)
    decreases |Elements(selected) - (Elements(order) + Elements(path))|, |keys|
  {
    DepsFirstClosed(g, selected);
    hide DepsFirst, Closed, Apart, Before, VisitAll, SameWalk;
    if keys == [] {
      NothingToWalk(g, nodes, selected, path, order);
    } else {
      var key := keys[0];
      BeforeTail(selected, keys, path, order);
      if key in order {
        MarkingEarly(g, nodes, selected, path, order, keys[1..]);
        WalkedBefore(g, nodes, selected, path, order, keys);
      } else {
        EdgesBefore(g, selected, keys, path, key);
        ApartInner(selected, path, order, key);
        MarkingEarly(g, nodes, selected, path + [key], order, Edges(g, key));
        var after := ApartAfter(g, nodes, selected, path, order, key);
        MarkingEarly(g, nodes, selected, path, after + [key], keys[1..]);
        WalkedNow(g, nodes, selected, path, order, keys, after);
      }
    }
  }

  lemma BeforeTail(selected: seq<Key>, keys: seq<Key>, path: seq<Key>, order: seq<Key>)
    requires Before(selected, keys, path) && keys != []
    ensures Before(selected, keys[1..], path)
    ensures keys[0] in selected && keys[0] !in path
  {}

  lemma ApartInner(selected: seq<Key>, path: seq<Key>, order: seq<Key>, key: Key)
    requires Apart(selected, path, order) && key in selected && key !in path && key !in order
    ensures Apart(selected, path + [key], order)
    ensures |Elements(selected) - (Elements(order) + Elements(path + [key]))| < |Elements(selected) - (Elements(order) + Elements(path))|
  {
    assert key in path + [key] && forall p <- path :: p in path + [key];
    Fewer(selected, order, path, order, path + [key], key);
  }

  lemma ApartAfter(g: Graph, nodes: set<Key>, selected: seq<Key>, path: seq<Key>, order: seq<Key>, key: Key) returns (after: seq<Key>)
    requires Closed(g, Elements(selected)) && (forall d <- Edges(g, key) :: d in selected)
    requires Apart(selected, path, order) && key in selected && key !in path && key !in order
    requires SameWalk(g, nodes, selected, path + [key], order, Edges(g, key))
    ensures VisitAll(g, nodes, path + [key], order, Edges(g, key)) == Sorted(after)
    ensures Apart(selected, path, after + [key])
    ensures |Elements(selected) - (Elements(after + [key]) + Elements(path))| < |Elements(selected) - (Elements(order) + Elements(path))|
  {
    match VisitAll(g, nodes, path + [key], order, Edges(g, key))
    case Sorted(found) =>
      after := found;
      assert key in after + [key] && key in path + [key];
      assert forall p <- path :: p in path + [key];
      Fewer(selected, order, path, after + [key], path, key);
  }

  lemma Fewer(selected: seq<Key>, order: seq<Key>, path: seq<Key>, order': seq<Key>, path': seq<Key>, key: Key)
    requires key in selected && key !in order && key !in path
    requires Elements(order) + Elements(path) + {key} <= Elements(order') + Elements(path')
    ensures |Elements(selected) - (Elements(order') + Elements(path'))| < |Elements(selected) - (Elements(order) + Elements(path))|
  {
    Smaller(Elements(selected) - (Elements(order') + Elements(path')), Elements(selected) - (Elements(order) + Elements(path)), key);
  }

  /** On a selection the sort made, the closure of any selected roots is the very list
      the sort would give for them, whatever nodes the sort may look among. */
  lemma ClosureIsSort(g: Graph, nodes: set<Key>, first: seq<Key>, selected: seq<Key>, roots: seq<Key>, among: set<Key>)
    requires TopoSort(g, nodes, first) == Sorted(selected)
    requires (forall k <- roots :: k in selected) && Elements(selected) <= among
    ensures Closed(g, Elements(selected))
    ensures TopoSort(g, among, roots) == Sorted(SelectedClosure(g, Elements(selected), roots))
  {
    TopoSortCorrect(g, nodes, first);
    MarkingEarly(g, among, selected, [], [], roots);
    assert Elements([]) + Elements([]) == {};
  }

  /** `unique_nodes`: each key where it first stands. */
  function Unique(keys: seq<Key>, seen: set<Key>): (r: seq<Key>)
    ensures forall k :: k in r <==> k in keys && k !in seen
  {
    if keys == [] then []
    else if keys[0] in seen then Unique(keys[1..], seen)
    else [keys[0]] + Unique(keys[1..], seen + {keys[0]})
  }

  function TransitiveDeps(g: Graph, selected: set<Key>, key: Key): seq<Key>
    requires Closed(g, selected) && key in selected
  {
    SelectedClosure(g, selected, Unique(Edges(g, key), {}))
  }

  /** A node's transitive dependencies: those a walk of one edge or more reaches, each
      once and after its own, and never the node itself. */
  lemma TransitiveDepsCorrect(g: Graph, nodes: set<Key>, first: seq<Key>, selected: seq<Key>, key: Key)
    requires TopoSort(g, nodes, first) == Sorted(selected) && key in selected
    ensures Closed(g, Elements(selected))
    ensures var deps := TransitiveDeps(g, Elements(selected), key);
            DepsFirst(g, deps) && key !in deps && forall k :: k in deps <==> Reached(g, Edges(g, key), k)
  {
    TopoSortCorrect(g, nodes, first);
    DepsFirstClosed(g, selected);
    var roots := Unique(Edges(g, key), {});
    ClosureIsSort(g, nodes, first, selected, roots, Elements(selected));
    TopoSortCorrect(g, Elements(selected), roots);
    if Reached(g, Edges(g, key), key) {
      var walk :| IsWalk(g, walk) && walk[0] in Edges(g, key) && walk[|walk| - 1] == key;
      var at := WalkDescends(g, selected, [key] + walk);
    }
  }

  // ------------------------------------------------------------ the sort, in arrays

  /** An array of flags by node id says which nodes are in a list. */
  ghost predicate Tracks(nodes: seq<Key>, flags: array<bool>, list: seq<Key>)
    reads flags
  {
    flags.Length == |nodes| && forall i | 0 <= i < |nodes| :: flags[i] <==> nodes[i] in list
  }

  method CheckTargets(index: Index<nat>, ghost nodes: seq<Key>, keys: seq<Key>) returns (missing: Option<Key>)
    requires AllDistinct(nodes) && index == BuildKeyIndex(nodes)
    ensures missing == FirstMissing(Elements(nodes), keys)
  {
    missing := None;
    var i := 0;
    while i < |keys|
      invariant 0 <= i <= |keys|
      invariant FirstMissing(Elements(nodes), keys) == FirstMissing(Elements(nodes), keys[i..])
    {
      assert keys[i..][1..] == keys[i + 1..];
      if FindId(index, nodes, keys[i]) == None {
        return Some(keys[i]);
      }
      i := i + 1;
    }
  }

  /** `find_key_id` */
  function FindId(index: Index<nat>, ghost nodes: seq<Key>, key: Key): (id: Option<nat>)
    requires AllDistinct(nodes) && index == BuildKeyIndex(nodes)
    ensures match id case Some(i) => i < |nodes| && nodes[i] == key case None => key !in nodes
  {
    assert forall i: nat :: Find(index, key) == Some(i) <==> i < |nodes| && nodes[i] == key by {
      forall i: nat { KeyIdIsPosition(nodes, key, i); }
    }
    Find(index, key)
  }

  method Raise(flags: array<bool>, id: nat, ghost nodes: seq<Key>, ghost list: seq<Key>)
    requires AllDistinct(nodes) && Tracks(nodes, flags, list) && id < |nodes|
    modifies flags
    ensures Tracks(nodes, flags, list + [nodes[id]])
  {
    flags[id] := true;
  }

  method Lower(flags: array<bool>, id: nat, ghost nodes: seq<Key>, ghost list: seq<Key>)
    requires AllDistinct(nodes) && id < |nodes| && nodes[id] !in list && Tracks(nodes, flags, list + [nodes[id]])
    modifies flags
    ensures Tracks(nodes, flags, list)
  {
    flags[id] := false;
  }

  method VisitNode(g: Graph, index: Index<nat>, ghost nodes: seq<Key>, visited: array<bool>, active: array<bool>, path: seq<Key>, order: seq<Key>, key: Key)
    returns (r: Outcome)
    requires AllDistinct(nodes) && index == BuildKeyIndex(nodes)
    requires visited != active && Tracks(nodes, visited, order) && Tracks(nodes, active, path)
    modifies visited, active
    ensures r == Visit(g, Elements(nodes), path, order, key)
    ensures match r case Sorted(after) => Tracks(nodes, visited, after) && Tracks(nodes, active, path) case Failed(_) => true
    decreases |Elements(nodes) - Elements(path)|, 0, 0
  {
    hide AllDistinct, VisitAll, FirstMissing, Find;
    var found := FindId(index, nodes, key);
    match found {
      case None => return Failed(Missing(key));
      case Some(id) =>
        if visited[id] { return Sorted(order); }
        if active[id] { return Failed(Cycle(path + [key])); }
        Raise(active, id, nodes, path);
        var missing := CheckTargets(index, nodes, Edges(g, key));
        match missing {
          case Some(target) => return Failed(Missing(target));
          case None =>
        }
        assert Elements(nodes) - Elements(path + [key]) == Elements(nodes) - Elements(path) - {key};
        r := VisitList(g, index, nodes, visited, active, path + [key], order, Edges(g, key));
        match r {
          case Failed(_) => return;
          case Sorted(after) =>
            Lower(active, id, nodes, path);
            Raise(visited, id, nodes, after);
            r := Sorted(after + [key]);
        }
    }
  }

  method VisitList(g: Graph, index: Index<nat>, ghost nodes: seq<Key>, visited: array<bool>, active: array<bool>, path: seq<Key>, start: seq<Key>, keys: seq<Key>)
    returns (r: Outcome)
    requires AllDistinct(nodes) && index == BuildKeyIndex(nodes)
    requires visited != active && Tracks(nodes, visited, start) && Tracks(nodes, active, path)
    modifies visited, active
    ensures r == VisitAll(g, Elements(nodes), path, start, keys)
    ensures match r case Sorted(after) => Tracks(nodes, visited, after) && Tracks(nodes, active, path) case Failed(_) => true
    decreases |Elements(nodes) - Elements(path)|, 1, |keys|
  {
    var order := start;
    var i := 0;
    while i < |keys|
      invariant 0 <= i <= |keys|
      invariant Tracks(nodes, visited, order) && Tracks(nodes, active, path)
      invariant VisitAll(g, Elements(nodes), path, start, keys) == VisitAll(g, Elements(nodes), path, order, keys[i..])
    {
      assert keys[i..][1..] == keys[i + 1..];
      r := VisitNode(g, index, nodes, visited, active, path, order, keys[i]);
      match r {
        case Failed(_) => return;
        case Sorted(after) => order := after;
      }
      i := i + 1;
    }
    r := Sorted(order);
  }

  method TopoSortResolved(nodes: seq<Key>, roots: seq<Key>, g: Graph) returns (r: Outcome)
    requires AllDistinct(nodes)
    ensures r == TopoSort(g, Elements(nodes), roots)
  {
    var visited := new bool[|nodes|](_ => false);
    var active := new bool[|nodes|](_ => false);
    r := VisitList(g, BuildKeyIndex(nodes), nodes, visited, active, [], [], roots);
  }
}
