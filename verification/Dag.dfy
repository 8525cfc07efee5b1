/** The dependency graph of a batch: who depends on whom, transitively, what
    `dag_priorities` computes from it, and what adding an edge changes. */
module Dag {

  /** An action's input key. */
  datatype Key = Key(hex: string)

  datatype Edge = Edge(child: Key, parent: Key)

  /** `Priority`: the length in edges of the longest path to an action nothing
      depends on, and the number of transitive dependents. */
  datatype Priority = Priority(criticalDepth: nat, descendantCount: nat)

  /** Each key after the first depends on the one before it. */
  ghost predicate IsChain(edges: set<Edge>, path: seq<Key>) {
    forall i :: 0 <= i < |path| - 1 ==> Edge(path[i + 1], path[i]) in edges
  }

  ghost predicate ChainFromTo(edges: set<Edge>, path: seq<Key>, a: Key, b: Key) {
    |path| >= 2 && path[0] == a && path[|path| - 1] == b && IsChain(edges, path)
  }

  /** `b` depends on `a`, directly or transitively. */
  ghost predicate Reaches(edges: set<Edge>, a: Key, b: Key) {
    exists path: seq<Key> :: ChainFromTo(edges, path, a, b)
  }

  ghost predicate ReachesOrIs(edges: set<Edge>, a: Key, b: Key) {
    a == b || Reaches(edges, a, b)
  }

  ghost predicate Acyclic(edges: set<Edge>) {
    forall k :: !Reaches(edges, k, k)
  }

  ghost predicate Joins(edges: set<Edge>, keys: set<Key>) {
    forall e <- edges :: e.child in keys && e.parent in keys
  }

  ghost function Dependents(edges: set<Edge>, keys: set<Key>, k: Key): set<Key> {
    set x | x in keys && Reaches(edges, k, x)
  }

  ghost predicate ChainOf(edges: set<Edge>, path: seq<Key>, k: Key, d: nat) {
    |path| == d + 1 && path[0] == k && IsChain(edges, path)
  }

  /** The longest chain from `k` has `d` edges. */
  ghost predicate LongestFrom(edges: set<Edge>, k: Key, d: nat) {
    (exists path: seq<Key> :: ChainOf(edges, path, k, d)) &&
    forall path: seq<Key>, n: nat :: ChainOf(edges, path, k, n) ==> n <= d
  }

  ghost predicate PriorityOf(edges: set<Edge>, keys: set<Key>, k: Key, p: Priority) {
    LongestFrom(edges, k, p.criticalDepth) && p.descendantCount == |Dependents(edges, keys, k)|
  }

  lemma PriorityUnique(edges: set<Edge>, keys: set<Key>, k: Key, p: Priority, q: Priority)
    requires PriorityOf(edges, keys, k, p) && PriorityOf(edges, keys, k, q)
    ensures p == q
  {
    var x :| ChainOf(edges, x, k, p.criticalDepth);
    var y :| ChainOf(edges, y, k, q.criticalDepth);
  }

  // ---- paths ---------------------------------------------------------------------

  lemma ReachStep(edges: set<Edge>, a: Key, b: Key)
    requires Edge(b, a) in edges
    ensures Reaches(edges, a, b)
  {
    assert ChainFromTo(edges, [a, b], a, b);
  }

  lemma ChainJoin(edges: set<Edge>, p: seq<Key>, q: seq<Key>)
    requires p != [] && q != [] && IsChain(edges, p) && IsChain(edges, q)
    requires p[|p| - 1] == q[0]
    ensures IsChain(edges, p + q[1..])
  {
    var r := p + q[1..];
    forall i | 0 <= i < |r| - 1
      ensures Edge(r[i + 1], r[i]) in edges
    {
      if i >= |p| - 1 {
        assert r[i + 1] == q[i - |p| + 2] && r[i] == q[i - |p| + 1];
      } else {
        assert r[i + 1] == p[i + 1] && r[i] == p[i];
      }
    }
  }

  lemma ReachTransitive(edges: set<Edge>, a: Key, b: Key, c: Key)
    requires Reaches(edges, a, b) && Reaches(edges, b, c)
    ensures Reaches(edges, a, c)
  {
    var p :| ChainFromTo(edges, p, a, b);
    var q :| ChainFromTo(edges, q, b, c);
    ChainJoin(edges, p, q);
    assert ChainFromTo(edges, p + q[1..], a, c);
  }

  lemma ReachFirst(edges: set<Edge>, a: Key, b: Key) returns (x: Key)
    requires Reaches(edges, a, b)
    ensures Edge(x, a) in edges && ReachesOrIs(edges, x, b)
  {
    var p :| ChainFromTo(edges, p, a, b);
    x := p[1];
    if |p| > 2 {
      assert ChainFromTo(edges, p[1..], x, b);
    }
  }

  lemma ReachLast(edges: set<Edge>, a: Key, b: Key) returns (x: Key)
    requires Reaches(edges, a, b)
    ensures Edge(b, x) in edges
  {
    var p :| ChainFromTo(edges, p, a, b);
    x := p[|p| - 2];
    assert Edge(p[|p| - 2 + 1], p[|p| - 2]) in edges;
  }

  lemma ReachMonotone(edges: set<Edge>, more: set<Edge>, a: Key, b: Key)
    requires edges <= more && Reaches(edges, a, b)
    ensures Reaches(more, a, b)
  {
    var p :| ChainFromTo(edges, p, a, b);
    assert ChainFromTo(more, p, a, b);
  }

  lemma ReachWithin(edges: set<Edge>, keys: set<Key>, a: Key, b: Key)
    requires Joins(edges, keys) && Reaches(edges, a, b)
    ensures b in keys
  {
    var x := ReachLast(edges, a, b);
  }

  // ---- chains in a finite graph -----------------------------------------------------

  ghost predicate Within(path: seq<Key>, s: set<Key>) {
    forall i :: 0 <= i < |path| ==> path[i] in s
  }

  lemma {:induction false} Pigeonhole(s: set<Key>, path: seq<Key>)
    requires Within(path, s) && |path| > |s|
    ensures exists i, j :: 0 <= i < j < |path| && path[i] == path[j]
    decreases |s|
  {
    var first := path[0];
    if j :| 0 < j < |path| && path[j] == first {
      assert path[0] == path[j];
    } else {
      var rest := path[1..];
      forall i | 0 <= i < |rest|
        ensures rest[i] in s - {first}
      {
        assert path[i + 1] != first;
      }
      Pigeonhole(s - {first}, rest);
      var i, j :| 0 <= i < j < |rest| && rest[i] == rest[j];
      assert path[i + 1] == path[j + 1];
    }
  }

  lemma ChainPart(edges: set<Edge>, path: seq<Key>, i: nat, j: nat)
    requires IsChain(edges, path) && i <= j <= |path|
    ensures IsChain(edges, path[i..j])
  {
    var part := path[i..j];
    forall x | 0 <= x < |part| - 1
      ensures Edge(part[x + 1], part[x]) in edges
    {
      assert Edge(path[i + x + 1], path[i + x]) in edges;
    }
  }

  /** A chain longer than there are keys goes round a cycle. */
  lemma LongChainIsCyclic(edges: set<Edge>, keys: set<Key>, path: seq<Key>)
    requires IsChain(edges, path) && |path| > |keys| && Within(path, keys)
    ensures !Acyclic(edges)
  {
    Pigeonhole(keys, path);
    var i, j :| 0 <= i < j < |path| && path[i] == path[j];
    ChainPart(edges, path, i, j + 1);
    assert ChainFromTo(edges, path[i..j + 1], path[i], path[i]);
    assert Reaches(edges, path[i], path[i]);
  }

  ghost predicate NoneDependsOn(edges: set<Edge>, s: set<Key>, k: Key) {
    forall c :: c in s ==> Edge(c, k) !in edges
  }

  ghost predicate DependsOnNone(edges: set<Edge>, s: set<Key>, k: Key) {
    forall p :: p in s ==> Edge(k, p) !in edges
  }

  lemma {:induction false} GrowChain(edges: set<Edge>, s: set<Key>, n: nat) returns (path: seq<Key>)
    requires s != {}
    requires forall k :: k in s ==> !NoneDependsOn(edges, s, k)
    ensures |path| == n + 1 && IsChain(edges, path) && Within(path, s)
  {
    if n == 0 {
      var k :| k in s;
      path := [k];
    } else {
      var shorter := GrowChain(edges, s, n - 1);
      var last := shorter[n - 1];
      assert last in s;
      var c :| c in s && Edge(c, last) in edges;
      path := shorter + [c];
      forall i | 0 <= i < |path| - 1
        ensures Edge(path[i + 1], path[i]) in edges
      {
        if i < n - 1 { assert Edge(shorter[i + 1], shorter[i]) in edges; }
      }
    }
  }

  lemma {:induction false} GrowChainBack(edges: set<Edge>, s: set<Key>, n: nat) returns (path: seq<Key>)
    requires s != {}
    requires forall k :: k in s ==> !DependsOnNone(edges, s, k)
    ensures |path| == n + 1 && IsChain(edges, path) && Within(path, s)
  {
    if n == 0 {
      var k :| k in s;
      path := [k];
    } else {
      var shorter := GrowChainBack(edges, s, n - 1);
      var first := shorter[0];
      assert first in s;
      var p :| p in s && Edge(first, p) in edges;
      path := [p] + shorter;
      forall i | 0 <= i < |path| - 1
        ensures Edge(path[i + 1], path[i]) in edges
      {
        if i > 0 { assert Edge(shorter[i - 1 + 1], shorter[i - 1]) in edges; }
      }
    }
  }

  /** Keys that all have a dependent among them hold a cycle. */
  lemma AllHaveDependents(edges: set<Edge>, s: set<Key>)
    requires s != {} && forall k :: k in s ==> !NoneDependsOn(edges, s, k)
    ensures !Acyclic(edges)
  {
    var path := GrowChain(edges, s, |s|);
    LongChainIsCyclic(edges, s, path);
  }

  /** Some of any keys depends on none of them, unless there is a cycle. */
  lemma SomeHasNoParent(edges: set<Edge>, s: set<Key>) returns (k: Key)
    requires Acyclic(edges) && s != {}
    ensures k in s && DependsOnNone(edges, s, k)
  {
    if forall k :: k in s ==> !DependsOnNone(edges, s, k) {
      var path := GrowChainBack(edges, s, |s|);
      LongChainIsCyclic(edges, s, path);
    }
    k :| k in s && DependsOnNone(edges, s, k);
  }

  // ---- one more edge --------------------------------------------------------------------

  /** A path over the old edges and one new one either avoids the new edge, or
      leads to its parent and on from its child over old edges. */
  lemma {:induction false} ChainSplit(edges: set<Edge>, e: Edge, path: seq<Key>)
    requires |path| >= 2 && IsChain(edges + {e}, path)
    ensures Reaches(edges, path[0], path[|path| - 1]) ||
            (ReachesOrIs(edges, path[0], e.parent) && ReachesOrIs(edges, e.child, path[|path| - 1]))
    decreases |path|
  {
    var a, x, b := path[0], path[1], path[|path| - 1];
    assert Edge(path[0 + 1], path[0]) in edges + {e};
    if Edge(x, a) in edges { ReachStep(edges, a, x); }
    if |path| > 2 {
      var rest := path[1..];
      ChainPart(edges + {e}, path, 1, |path|);
      ChainSplit(edges, e, rest);
      if Edge(x, a) in edges {
        if Reaches(edges, x, b) {
          ReachTransitive(edges, a, x, b);
        } else if x != e.parent {
          ReachTransitive(edges, a, x, e.parent);
        }
      }
    }
  }

  lemma ReachSplit(edges: set<Edge>, e: Edge, a: Key, b: Key)
    requires Reaches(edges + {e}, a, b)
    ensures Reaches(edges, a, b) || (ReachesOrIs(edges, a, e.parent) && ReachesOrIs(edges, e.child, b))
  {
    var path :| ChainFromTo(edges + {e}, path, a, b);
    ChainSplit(edges, e, path);
  }

  /** A new edge closes a cycle exactly when its parent is its child or already
      depends on it. */
  lemma EdgeClosesCycle(edges: set<Edge>, e: Edge)
    requires Acyclic(edges)
    ensures Acyclic(edges + {e}) <==> !ReachesOrIs(edges, e.child, e.parent)
  {
    var more := edges + {e};
    if ReachesOrIs(edges, e.child, e.parent) {
      ReachStep(more, e.parent, e.child);
      if e.child != e.parent {
        ReachMonotone(edges, more, e.child, e.parent);
        ReachTransitive(more, e.parent, e.child, e.parent);
      }
      assert Reaches(more, e.parent, e.parent);
    } else {
      forall k
        ensures !Reaches(more, k, k)
      {
        if Reaches(more, k, k) {
          ReachSplit(edges, e, k, k);
          if e.child != k && k != e.parent {
            ReachTransitive(edges, e.child, k, e.parent);
          }
        }
      }
    }
  }

  /** The edge changes the priorities of its parent and of what the parent
      depends on, and of nothing else. */
  lemma EdgeChangesOnlyAncestors(edges: set<Edge>, keys: set<Key>, e: Edge, k: Key, p: Priority)
    requires !ReachesOrIs(edges, k, e.parent)
    ensures PriorityOf(edges + {e}, keys, k, p) <==> PriorityOf(edges, keys, k, p)
  {
    var more := edges + {e};
    forall x
      ensures Reaches(more, k, x) <==> Reaches(edges, k, x)
    {
      if Reaches(more, k, x) { ReachSplit(edges, e, k, x); }
      if Reaches(edges, k, x) { ReachMonotone(edges, more, k, x); }
    }
    assert Dependents(more, keys, k) == Dependents(edges, keys, k);
    forall path: seq<Key>, n: nat
      ensures ChainOf(more, path, k, n) <==> ChainOf(edges, path, k, n)
    {
      if ChainOf(more, path, k, n) { ChainAvoids(edges, e, path); }
    }
    LongestSame(more, edges, k, p.criticalDepth);
  }

  lemma LongestSame(a: set<Edge>, b: set<Edge>, k: Key, d: nat)
    requires forall path: seq<Key>, n: nat :: ChainOf(a, path, k, n) <==> ChainOf(b, path, k, n)
    ensures LongestFrom(a, k, d) <==> LongestFrom(b, k, d)
  {
    if LongestFrom(a, k, d) {
      var path :| ChainOf(a, path, k, d);
      assert ChainOf(b, path, k, d);
    }
    if LongestFrom(b, k, d) {
      var path :| ChainOf(b, path, k, d);
      assert ChainOf(a, path, k, d);
    }
  }

  lemma {:induction false} ChainAvoids(edges: set<Edge>, e: Edge, path: seq<Key>)
    requires path != [] && IsChain(edges + {e}, path)
    requires !ReachesOrIs(edges, path[0], e.parent)
    ensures IsChain(edges, path)
    decreases |path|
  {
    if |path| >= 2 {
      assert Edge(path[0 + 1], path[0]) in edges + {e};
      ReachStep(edges, path[0], path[1]);
      if Reaches(edges, path[1], e.parent) {
        ReachTransitive(edges, path[0], path[1], e.parent);
      }
      var rest := path[1..];
      ChainPart(edges + {e}, path, 1, |path|);
      ChainAvoids(edges, e, rest);
      forall i | 0 <= i < |path| - 1
        ensures Edge(path[i + 1], path[i]) in edges
      {
        if i > 0 { assert Edge(rest[i - 1 + 1], rest[i - 1]) in edges; }
      }
    }
  }

  // ---- dag_priorities -------------------------------------------------------------------

  ghost function Children(edges: set<Edge>, keys: set<Key>, k: Key): set<Key> {
    set c | c in keys && Edge(c, k) in edges
  }

  /** From the priorities of what depends on `k` directly to those of `k`. */
  lemma LongestStep(edges: set<Edge>, keys: set<Key>, k: Key, depth: map<Key, nat>, d: nat)
    requires Joins(edges, keys)
    requires forall c <- Children(edges, keys, k) :: c in depth && LongestFrom(edges, c, depth[c]) && depth[c] + 1 <= d
    requires d == 0 || exists c :: c in Children(edges, keys, k) && depth[c] + 1 == d
    ensures LongestFrom(edges, k, d)
  {
    if d == 0 {
      assert ChainOf(edges, [k], k, 0);
    } else {
      var c :| c in Children(edges, keys, k) && depth[c] + 1 == d;
      var path :| ChainOf(edges, path, c, d - 1);
      ChainJoin(edges, [k, c], path);
      assert [k, c] + path[1..] == [k] + path;
      assert ChainOf(edges, [k] + path, k, d);
    }
    forall path: seq<Key>, n: nat | ChainOf(edges, path, k, n)
      ensures n <= d
    {
      if n > 0 {
        assert Edge(path[0 + 1], path[0]) in edges;
        var rest := path[1..];
        ChainPart(edges, path, 1, |path|);
        assert ChainOf(edges, rest, path[1], n - 1);
        assert path[1] in Children(edges, keys, k);
      }
    }
  }

  lemma DependentsStep(edges: set<Edge>, keys: set<Key>, k: Key)
    requires Joins(edges, keys)
    ensures Dependents(edges, keys, k) == WithDependents(edges, keys, Children(edges, keys, k))
  {
    var all := WithDependents(edges, keys, Children(edges, keys, k));
    forall x | x in Dependents(edges, keys, k)
      ensures x in all
    {
      var c := ReachFirst(edges, k, x);
      assert c in Children(edges, keys, k);
    }
    forall x | x in all
      ensures x in Dependents(edges, keys, k)
    {
      var c :| c in Children(edges, keys, k) && (x == c || Reaches(edges, c, x));
      ReachStep(edges, k, c);
      if x != c { ReachTransitive(edges, k, c, x); }
    }
  }

  /** The keys in `found` together with what depends on them. */
  ghost function WithDependents(edges: set<Edge>, keys: set<Key>, found: set<Key>): set<Key> {
    set c, x | c in found && x in keys && (x == c || Reaches(edges, c, x)) :: x
  }

  lemma WithOneMore(edges: set<Edge>, keys: set<Key>, found: set<Key>, c: Key)
    requires c in keys
    ensures WithDependents(edges, keys, found + {c}) ==
            WithDependents(edges, keys, found) + {c} + Dependents(edges, keys, c)
  {
    forall x | x in WithDependents(edges, keys, found) + {c} + Dependents(edges, keys, c)
      ensures x in WithDependents(edges, keys, found + {c})
    {
      if x in WithDependents(edges, keys, found) {
        var f :| f in found && (x == f || Reaches(edges, f, x));
        assert f in found + {c};
      } else {
        assert c in found + {c};
      }
    }
  }

  datatype Priorities = Priorities(of: map<Key, Priority>) | CycleError

  /** `dag_priorities`: children before their parents, each key's depth and
      dependents from those of the keys that depend on it. The source's bitsets
      are sets here, and its `bit_count` their size. A cycle, a self-edge
      included, is an error, and nothing else is. */
  method DagPriorities(keys: set<Key>, edges: set<Edge>) returns (r: Priorities)
    requires Joins(edges, keys)
    ensures r.CycleError? <==> !Acyclic(edges)
    ensures r.Priorities? ==> r.of.Keys == keys && forall k <- keys :: PriorityOf(edges, keys, k, r.of[k])
  {
    var depth: map<Key, nat> := map[];
    var descendants: map<Key, set<Key>> := map[];
    var left := keys;
    while left != {}
      invariant left <= keys && depth.Keys == descendants.Keys == keys - left
      invariant forall k <- depth :: LongestFrom(edges, k, depth[k])
      invariant forall k <- depth :: descendants[k] == Dependents(edges, keys, k)
      invariant forall k <- depth :: k !in descendants[k] && descendants[k] <= depth.Keys
      decreases left
    {
      var free := set k | k in left && forall c <- left :: Edge(c, k) !in edges;
      if free == {} {
        forall k | k in left
          ensures !NoneDependsOn(edges, left, k)
        {
          assert k !in free;
        }
        AllHaveDependents(edges, left);
        return CycleError;
      }
      var k :| k in free;
      var d, below := FromChildren(keys, edges, k, depth, descendants);
      depth, descendants, left := depth[k := d], descendants[k := below], left - {k};
    }
    forall k
      ensures !Reaches(edges, k, k)
    {
      if k in keys {
        assert k !in descendants[k];
      } else if Reaches(edges, k, k) {
        ReachWithin(edges, keys, k, k);
      }
    }
    r := Priorities(map k | k in keys :: Priority(depth[k], |descendants[k]|));
  }

  /** The loop over a key's children. */
  method FromChildren(keys: set<Key>, edges: set<Edge>, k: Key, depth: map<Key, nat>, descendants: map<Key, set<Key>>)
    returns (d: nat, below: set<Key>)
    requires Joins(edges, keys) && depth.Keys == descendants.Keys <= keys
    requires k in keys && k !in depth && Children(edges, keys, k) <= depth.Keys
    requires forall c <- depth :: LongestFrom(edges, c, depth[c])
    requires forall c <- depth :: descendants[c] == Dependents(edges, keys, c)
    requires forall c <- depth :: descendants[c] <= depth.Keys
    ensures LongestFrom(edges, k, d) && below == Dependents(edges, keys, k)
    ensures below <= depth.Keys
  {
    d, below := 0, {};
    var children := set c | c in keys && Edge(c, k) in edges;
    var rest := children;
    while rest != {}
      invariant rest <= children
      invariant forall c <- children - rest :: depth[c] + 1 <= d
      invariant d == 0 || exists c :: c in children && depth[c] + 1 == d
      invariant below == WithDependents(edges, keys, children - rest) <= depth.Keys
      decreases rest
    {
      var c :| c in rest;
      if depth[c] + 1 > d { d := depth[c] + 1; }
      WithOneMore(edges, keys, children - rest, c);
      assert children - (rest - {c}) == (children - rest) + {c};
      below := below + {c} + descendants[c];
      rest := rest - {c};
    }
    assert children - rest == Children(edges, keys, k);
    LongestStep(edges, keys, k, depth, d);
    DependentsStep(edges, keys, k);
  }

  /** An acyclic graph gives every key a priority. */
  lemma PriorityExists(keys: set<Key>, edges: set<Edge>, k: Key)
    requires Joins(edges, keys) && Acyclic(edges) && k in keys
    ensures exists p :: PriorityOf(edges, keys, k, p)
  {
    var d := LongestExists(keys, edges, k, |keys|);
    assert PriorityOf(edges, keys, k, Priority(d, |Dependents(edges, keys, k)|));
  }

  lemma {:induction false} LongestExists(keys: set<Key>, edges: set<Edge>, k: Key, most: nat) returns (d: nat)
    requires Joins(edges, keys) && Acyclic(edges) && k in keys
    requires most == |keys| || forall path: seq<Key>, n: nat :: ChainOf(edges, path, k, n) ==> n <= most
    ensures LongestFrom(edges, k, d)
    decreases most
  {
    forall path: seq<Key>, n: nat | ChainOf(edges, path, k, n)
      ensures n <= most
    {
      if most == |keys| && n > most {
        ChainWithin(edges, keys, path);
        LongChainIsCyclic(edges, keys, path);
      }
    }
    if exists path: seq<Key> :: ChainOf(edges, path, k, most) {
      d := most;
    } else {
      assert ChainOf(edges, [k], k, 0);
      d := LongestExists(keys, edges, k, most - 1);
    }
  }

  lemma ChainWithin(edges: set<Edge>, keys: set<Key>, path: seq<Key>)
    requires Joins(edges, keys) && IsChain(edges, path)
    requires path != [] ==> path[0] in keys
    ensures Within(path, keys)
  {
    forall i | 0 <= i < |path|
      ensures path[i] in keys
    {
      if i > 0 { assert Edge(path[i - 1 + 1], path[i - 1]) in edges; }
    }
  }

  /** The priority `dag_priorities` gives a key of an acyclic graph. */
  ghost function PriorityIn(keys: set<Key>, edges: set<Edge>, k: Key): (p: Priority)
    requires Joins(edges, keys) && Acyclic(edges) && k in keys
    ensures PriorityOf(edges, keys, k, p)
  {
    PriorityExists(keys, edges, k);
    var p :| PriorityOf(edges, keys, k, p);
    p
  }
}
