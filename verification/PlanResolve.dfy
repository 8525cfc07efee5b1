/** How the planner resolves what a node names: to nodes, to external objects, or not at
    all; and what that says of the plans it makes. */
module PlanResolve {
  import opened Wrappers
  import opened Collections
  import opened Text
  import opened KeyIndex
  import opened PlanSort
  import opened PlanKeys
  import opened KeyContents
  import Graphs = SelectedGraph

  type Reason = Graphs.Reason
  type Fact = Graphs.Fact
  type ExternalEdge = Graphs.ExternalEdge

  datatype Kind = TheoryScript | Sml | Sig

  datatype Node = Node(key: Key, package: string, logical: string, kind: Kind, companion: bool)

  /** The nodes there are, what is found in a source by its digest, and which external
      objects each node can load. */
  datatype World = World(nodes: seq<Node>, loads: string -> seq<string>, mentions: string -> seq<string>, available: (Key, string) -> bool)

  // ------------------------------------------------------------ candidates

  function Named(nodes: seq<Node>, name: string): (r: seq<Node>)
    ensures forall x :: x in r <==> x in nodes && x.logical == name
  {
    if nodes == [] then [] else (if nodes[0].logical == name then [nodes[0]] else []) + Named(nodes[1..], name)
  }

  function KeyOfNode(x: Node): Key {
    x.key
  }

  /** `indexed_nodes_named`: the nodes of a name, by key. */
  function Lookup(w: World, name: string): (r: seq<Node>)
    ensures forall x :: x in r <==> x in w.nodes && x.logical == name
  {
    var named := Named(w.nodes, name);
    assert forall x :: x in Sort(KeyOfNode, named) <==> x in named by {
      forall x { SameElements(Sort(KeyOfNode, named), named, x); }
    }
    Sort(KeyOfNode, named)
  }

  function Kept(nodes: seq<Node>, keeps: Node -> bool): (r: seq<Node>)
    ensures forall x :: x in r <==> x in nodes && keeps(x)
  {
    if nodes == [] then [] else (if keeps(nodes[0]) then [nodes[0]] else []) + Kept(nodes[1..], keeps)
  }

  /** The nodes a fact of `node` may mean. */
  function Candidates(w: World, node: Node, fact: Fact): (r: seq<Node>)
    ensures forall x <- r :: x in w.nodes
  {
    match fact.reason
    case SignatureCompanionReason =>
      if node.kind == Sml then Kept(Lookup(w, node.logical), (x: Node) => x.package == node.package && x.kind == Sig) else []
    case DeclaredExtraInput => []
    case _ => Kept(Lookup(w, fact.name), (x: Node) => x.key != node.key)
  }

  // ------------------------------------------------------------ what a node names

  function FactsOf(from: Key, reason: Reason, names: seq<string>): (r: seq<Fact>)
    ensures forall x :: x in r <==> x.fromNode == from && x.reason == reason && x.name in names
  {
    if names == [] then [] else [Graphs.Fact(from, names[0], reason)] + FactsOf(from, reason, names[1..])
  }

  function InputPaths(inputs: seq<Input>): seq<string> {
    if inputs == [] then [] else (if inputs[0].manifest then [inputs[0].decl] else []) + InputPaths(inputs[1..])
  }

  /** `symbolic_for` */
  function SymbolicFor(w: World, node: Node, f: Facts): seq<Fact> {
    FactsOf(node.key, Graphs.ExtractedLoad, w.loads(f.sourceHash)) +
    FactsOf(node.key, Graphs.ExtractedHoldepMention, w.mentions(f.sourceHash)) +
    FactsOf(node.key, Graphs.DeclaredActionDependency, f.declaredDeps) +
    FactsOf(node.key, Graphs.DeclaredActionLoad, f.declaredLoads) +
    (if node.companion then [Graphs.Fact(node.key, node.logical, Graphs.SignatureCompanionReason)] else []) +
    FactsOf(node.key, Graphs.DeclaredExtraInput, InputPaths(f.inputs))
  }

  // ------------------------------------------------------------ resolution

  function JustKey(x: Node): seq<Key> {
    [x.key]
  }

  function KeysOfNodes(nodes: seq<Node>): seq<Key> {
    FlatMap(JustKey, nodes)
  }

  function Targets(w: World, node: Node): Fact -> seq<Key> {
    x => KeysOfNodes(Candidates(w, node, x))
  }

  /** The targets of `resolved_for`, in order. */
  function ResolvedFor(w: World, node: Node, facts: seq<Fact>): seq<Key> {
    FlatMap(Targets(w, node), facts)
  }

  predicate TheoryName(name: string) {
    |name| > 6 && name[|name| - 6..] == "Theory"
  }

  function ExternalOne(w: World, node: Node, x: Fact): seq<ExternalEdge> {
    var none := Candidates(w, node, x) == [];
    match x.reason
    case DeclaredActionLoad => if none then [Graphs.ExternalEdge(x.fromNode, x.name, Graphs.ExternalLibrary, x.reason)] else []
    case DeclaredExtraInput => [Graphs.ExternalEdge(x.fromNode, x.name, Graphs.ExternalInput, x.reason)]
    case ExtractedLoad =>
      if !none then []
      else if TheoryName(x.name) then [Graphs.ExternalEdge(x.fromNode, x.name, Graphs.ExternalTheory, x.reason)]
      else if w.available(node.key, x.name) then [Graphs.ExternalEdge(x.fromNode, x.name, Graphs.ExternalLibrary, x.reason)]
      else []
    case ExtractedHoldepMention =>
      if none && w.available(node.key, x.name) then
        [Graphs.ExternalEdge(x.fromNode, x.name, if TheoryName(x.name) then Graphs.ExternalTheory else Graphs.ExternalLibrary, x.reason)]
      else []
    case _ => []
  }

  function ExternalFor(w: World, node: Node, facts: seq<Fact>): seq<ExternalEdge> {
    FlatMap((x: Fact) => ExternalOne(w, node, x), facts)
  }

  function UnresolvedOne(w: World, node: Node, x: Fact): seq<Fact> {
    if Candidates(w, node, x) != [] then []
    else
      match x.reason
      case DeclaredActionDependency => [x]
      case ExtractedLoad => if TheoryName(x.name) || w.available(node.key, x.name) then [] else [x]
      case _ => []
  }

  function UnresolvedFor(w: World, node: Node, facts: seq<Fact>): seq<Fact> {
    FlatMap((x: Fact) => UnresolvedOne(w, node, x), facts)
  }

  function ExternalNames(edges: seq<ExternalEdge>, wanted: ExternalEdge -> bool): seq<string> {
    FlatMap((e: ExternalEdge) => if wanted(e) then [e.name] else [], edges)
  }

  predicate IsTheory(e: ExternalEdge) {
    e.kind == Graphs.ExternalTheory
  }

  function IsLibraryBy(reason: Reason): ExternalEdge -> bool {
    (e: ExternalEdge) => e.kind == Graphs.ExternalLibrary && e.reason == reason
  }

  /** `direct_external_theories` */
  function ExternalTheories(edges: seq<ExternalEdge>): seq<string> {
    Unique(ExternalNames(edges, IsTheory), {})
  }

  function LibraryNames(edges: seq<ExternalEdge>, reason: Reason): seq<string> {
    ExternalNames(edges, IsLibraryBy(reason))
  }

  /** `direct_external_libs` */
  function ExternalLibs(edges: seq<ExternalEdge>): seq<string> {
    Unique(LibraryNames(edges, Graphs.DeclaredActionLoad) + LibraryNames(edges, Graphs.ExtractedHoldepMention) +
           LibraryNames(edges, Graphs.ExtractedLoad), {})
  }

  // ------------------------------------------------------------ the plans it makes

  /** The plan has of a node what resolving gives, and nothing of it is unresolved. */
  ghost predicate Planned(w: World, plan: Plan, node: Node) {
    && node in w.nodes && node.key in plan.facts
    && var f := plan.facts[node.key];
       var facts := SymbolicFor(w, node, f);
       && f.package == node.package && f.logical == node.logical
       && Edges(plan.graph, node.key) == ResolvedFor(w, node, facts)
       && f.externalTheories == ExternalTheories(ExternalFor(w, node, facts))
       && f.externalLibs == ExternalLibs(ExternalFor(w, node, facts))
       && UnresolvedFor(w, node, facts) == []
  }

  /** Keys are of one node each, and what is mentioned in a source is an identifier. */
  ghost predicate Sane(w: World) {
    && (forall x <- w.nodes, y <- w.nodes :: x.key == y.key ==> x == y)
    && (forall source, name :: name in w.mentions(source) ==> '@' !in name)
  }

  ghost predicate AllPlanned(w: World, plan: Plan) {
    Sane(w) && forall k <- plan.selected :: exists node: Node :: node.key == k && Planned(w, plan, node)
  }

  /** What is found in a source is its loads. */
  function Found(w: World): string -> set<string> {
    source => set l | l in w.loads(source)
  }

  // ------------------------------------------------------------ what that says of its names

  lemma {:induction false} UniqueOnce(xs: seq<string>, seen: set<string>)
    ensures forall i, j | 0 <= i < j < |Unique(xs, seen)| :: Unique(xs, seen)[i] != Unique(xs, seen)[j]
  {
    if xs != [] {
      if xs[0] in seen {
        UniqueOnce(xs[1..], seen);
      } else {
        var rest := Unique(xs[1..], seen + {xs[0]});
        UniqueOnce(xs[1..], seen + {xs[0]});
        assert forall j | 0 <= j < |rest| :: rest[j] in rest;
      }
    }
  }

  lemma ExternalFrom(w: World, node: Node, facts: seq<Fact>, e: ExternalEdge) returns (x: Fact)
    requires e in ExternalFor(w, node, facts)
    ensures x in facts && e in ExternalOne(w, node, x)
  {
    hide ExternalOne;
    x := FlatMapFrom((x: Fact) => ExternalOne(w, node, x), facts, e);
  }

  lemma NameFrom(edges: seq<ExternalEdge>, wanted: ExternalEdge -> bool, name: string) returns (e: ExternalEdge)
    requires name in ExternalNames(edges, wanted)
    ensures e in edges && wanted(e) && e.name == name
  {
    e := FlatMapFrom((e: ExternalEdge) => if wanted(e) then [e.name] else [], edges, name);
  }

  lemma NameKept(edges: seq<ExternalEdge>, wanted: ExternalEdge -> bool, e: ExternalEdge)
    requires e in edges && wanted(e)
    ensures e.name in ExternalNames(edges, wanted)
  {
    FlatMapHas((e: ExternalEdge) => if wanted(e) then [e.name] else [], edges, e, e.name);
  }

  /** An external library is loaded by its declaration or its source, or mentioned there,
      and no node but this one has its name. */
  lemma LibraryIsNamed(w: World, node: Node, f: Facts, l: string) returns (x: Fact)
    requires l in ExternalLibs(ExternalFor(w, node, SymbolicFor(w, node, f)))
    ensures x in SymbolicFor(w, node, f) && x.name == l && Candidates(w, node, x) == []
    ensures x.reason.DeclaredActionLoad? || x.reason.ExtractedHoldepMention? || x.reason.ExtractedLoad?
  {
    var facts := SymbolicFor(w, node, f);
    var edges := ExternalFor(w, node, facts);
    hide SymbolicFor, Candidates, ExternalFor, ExternalNames;
    var reason := if l in LibraryNames(edges, Graphs.DeclaredActionLoad) then Graphs.DeclaredActionLoad
                  else if l in LibraryNames(edges, Graphs.ExtractedHoldepMention) then Graphs.ExtractedHoldepMention
                  else Graphs.ExtractedLoad;
    assert l in LibraryNames(edges, reason);
    var e := NameFrom(edges, IsLibraryBy(reason), l);
    x := ExternalFrom(w, node, facts, e);
  }

  lemma TheoryIsNamed(w: World, node: Node, f: Facts, t: string)
    requires t in ExternalTheories(ExternalFor(w, node, SymbolicFor(w, node, f)))
    ensures TheoryName(t)
  {
    var facts := SymbolicFor(w, node, f);
    var edges := ExternalFor(w, node, facts);
    hide SymbolicFor, Candidates, ExternalFor, ExternalNames, TheoryName;
    var e := NameFrom(edges, IsTheory, t);
    var x := ExternalFrom(w, node, facts, e);
  }

  lemma TheoryReadsAsNone(prefix: string, name: string)
    requires TheoryName(name)
    ensures !ReadsAsDep(prefix + name)
  {
    var s := prefix + name;
    assert "Theory"[5] == 'y' && name[|name| - 6..][5] == name[|name| - 1];
    assert s[|s| - 1] == 'y';
    if |s| >= 65 {
      var tail := s[|s| - 64..];
      assert tail[63] == 'y' && tail[63] in tail;
    }
  }

  lemma NameWithAt(name: string)
    requires ReadsAsDep("HOLLIB:" + name)
    ensures '@' in name
  {
    var s := "HOLLIB:" + name;
    assert forall i | 0 <= i < 7 :: s[i] != '@';
    assert name[|s| - 65 - 7] == s[|s| - 65];
  }

  /** A library whose text reads as a dependency's is a load. */
  lemma LibraryIsLoad(w: World, node: Node, f: Facts, l: string)
    requires Sane(w) && l in ExternalLibs(ExternalFor(w, node, SymbolicFor(w, node, f))) && ReadsAsDep("HOLLIB:" + l)
    ensures l in Loads(Found(w), f)
  {
    var x := LibraryIsNamed(w, node, f, l);
    NameWithAt(l);
    hide ExternalLibs, ExternalFor, Candidates, ReadsAsDep;
  }

  /** A node is a dependency by its name. */
  lemma TargetIsNamed(w: World, node: Node, f: Facts, k: Key) returns (y: Node)
    requires Sane(w) && node in w.nodes && k in ResolvedFor(w, node, SymbolicFor(w, node, f))
    ensures y in w.nodes && y.key == k && k != node.key
  {
    hide SymbolicFor, Candidates;
    var x := FlatMapFrom(Targets(w, node), SymbolicFor(w, node, f), k);
    y := FlatMapFrom(JustKey, Candidates(w, node, x), k);
    NotItself(w, node, x, y);
  }

  lemma NotItself(w: World, node: Node, x: Fact, y: Node)
    requires Sane(w) && node in w.nodes && y in Candidates(w, node, x)
    ensures y.key != node.key
  {}

  /** No library has a dependency of its own name: that would have been meant. */
  lemma LibraryIsNoDependency(w: World, node: Node, f: Facts, l: string, k: Key)
    requires Sane(w) && node in w.nodes && l in ExternalLibs(ExternalFor(w, node, SymbolicFor(w, node, f)))
    requires k in ResolvedFor(w, node, SymbolicFor(w, node, f))
    ensures forall y <- w.nodes :: y.key == k ==> y.logical != l
  {
    var x := LibraryIsNamed(w, node, f, l);
    var y := TargetIsNamed(w, node, f, k);
    hide SymbolicFor, ExternalFor, ExternalLibs, ResolvedFor;
    assert y.logical == l ==> y in Candidates(w, node, x);
  }

  /** A load that reads as a dependency, as the fact it is. */
  lemma LoadIsNamed(w: World, node: Node, f: Facts, l: string) returns (x: Fact)
    requires l in Loads(Found(w), f)
    ensures x in SymbolicFor(w, node, f) && x.name == l && (x.reason.DeclaredActionLoad? || x.reason.ExtractedLoad?)
  {
    x := Graphs.Fact(node.key, l, if l in f.declaredLoads then Graphs.DeclaredActionLoad else Graphs.ExtractedLoad);
  }

  lemma OneLibrary(w: World, node: Node, x: Fact)
    requires Candidates(w, node, x) == [] && !TheoryName(x.name) && UnresolvedOne(w, node, x) == []
    requires x.reason.DeclaredActionLoad? || x.reason.ExtractedLoad?
    ensures Graphs.ExternalEdge(x.fromNode, x.name, Graphs.ExternalLibrary, x.reason) in ExternalOne(w, node, x)
  {
    hide Candidates, TheoryName;
  }

  lemma LibraryListed(edges: seq<ExternalEdge>, e: ExternalEdge)
    requires e in edges && e.kind == Graphs.ExternalLibrary && (e.reason.DeclaredActionLoad? || e.reason.ExtractedLoad?)
    ensures e.name in ExternalLibs(edges)
  {
    NameKept(edges, IsLibraryBy(e.reason), e);
    assert e.name in LibraryNames(edges, e.reason);
    hide LibraryNames;
  }

  /** A load whose text would read as a dependency's is external, or names a dependency:
      else it is unresolved, and the plan is refused. */
  lemma LoadIsResolved(w: World, node: Node, f: Facts, l: string)
    requires Sane(w) && node in w.nodes && UnresolvedFor(w, node, SymbolicFor(w, node, f)) == []
    requires l in Loads(Found(w), f) && ReadsAsDep("HOLLIB:" + l)
    ensures l in ExternalLibs(ExternalFor(w, node, SymbolicFor(w, node, f)))
            || exists y <- w.nodes :: y.logical == l && y.key in ResolvedFor(w, node, SymbolicFor(w, node, f))
  {
    var facts := SymbolicFor(w, node, f);
    var x := LoadIsNamed(w, node, f, l);
    if TheoryName(l) { TheoryReadsAsNone("HOLLIB:", l); }
    var found := Candidates(w, node, x);
    assert forall y <- found :: y in w.nodes && y.logical == l;
    hide SymbolicFor, ReadsAsDep, TheoryName, Candidates, ExternalOne, ExternalLibs, UnresolvedOne;
    if found != [] {
      var y := found[0];
      FlatMapHas(JustKey, found, y, y.key);
      FlatMapHas(Targets(w, node), facts, x, y.key);
    } else {
      if UnresolvedOne(w, node, x) != [] {
        FlatMapHas((x: Fact) => UnresolvedOne(w, node, x), facts, x, UnresolvedOne(w, node, x)[0]);
      }
      OneLibrary(w, node, x);
      var e := Graphs.ExternalEdge(x.fromNode, l, Graphs.ExternalLibrary, x.reason);
      FlatMapHas((x: Fact) => ExternalOne(w, node, x), facts, x, e);
      LibraryListed(ExternalFor(w, node, facts), e);
    }
  }

  // ------------------------------------------------------------ what resolving gives

  /** The node means `y` by a name of its own, or as its signature. */
  ghost predicate Means(w: World, node: Node, f: Facts, y: Node) {
    || (y.key != node.key
        && (y.logical in w.loads(f.sourceHash) || y.logical in w.mentions(f.sourceHash) || y.logical in f.declaredDeps || y.logical in f.declaredLoads))
    || (node.companion && node.kind == Sml && y.kind == Sig && y.package == node.package && y.logical == node.logical)
  }

  lemma CandidateIs(w: World, node: Node, x: Fact, y: Node)
    ensures y in Candidates(w, node, x) <==>
            y in w.nodes
            && match x.reason
               case SignatureCompanionReason => node.kind == Sml && y.kind == Sig && y.package == node.package && y.logical == node.logical
               case DeclaredExtraInput => false
               case _ => y.logical == x.name && y.key != node.key
  {}

  /** The facts of a node, each by what it names and why. */
  lemma FactIs(w: World, node: Node, f: Facts, x: Fact)
    ensures x in SymbolicFor(w, node, f) <==>
            x.fromNode == node.key
            && match x.reason
               case ExtractedLoad => x.name in w.loads(f.sourceHash)
               case ExtractedHoldepMention => x.name in w.mentions(f.sourceHash)
               case DeclaredActionDependency => x.name in f.declaredDeps
               case DeclaredActionLoad => x.name in f.declaredLoads
               case SignatureCompanionReason => node.companion && x.name == node.logical
               case DeclaredExtraInput => x.name in InputPaths(f.inputs)
  {}

  /** A planned node depends on exactly the nodes it means. */
  lemma DependenciesAreMeant(w: World, plan: Plan, node: Node, d: Key)
    requires Planned(w, plan, node)
    ensures d in DirectDeps(plan, node.key) <==> exists y <- w.nodes :: y.key == d && Means(w, node, plan.facts[node.key], y)
  {
    var f := plan.facts[node.key];
    var facts := SymbolicFor(w, node, f);
    assert d in DirectDeps(plan, node.key) <==> d in ResolvedFor(w, node, facts);
    hide SymbolicFor, Candidates, Planned, Means;
    if d in ResolvedFor(w, node, facts) {
      var x := FlatMapFrom(Targets(w, node), facts, d);
      var y := FlatMapFrom(JustKey, Candidates(w, node, x), d);
      FactMeans(w, node, f, x, y);
    }
    if y :| y in w.nodes && y.key == d && Means(w, node, f, y) {
      var x := MeantBy(w, node, f, y);
      FlatMapHas(JustKey, Candidates(w, node, x), y, d);
      FlatMapHas(Targets(w, node), facts, x, d);
    }
  }

  lemma FactMeans(w: World, node: Node, f: Facts, x: Fact, y: Node)
    requires x in SymbolicFor(w, node, f) && y in Candidates(w, node, x)
    ensures y in w.nodes && Means(w, node, f, y)
  {
    FactIs(w, node, f, x);
    CandidateIs(w, node, x, y);
    hide SymbolicFor, Candidates;
  }

  lemma MeantBy(w: World, node: Node, f: Facts, y: Node) returns (x: Fact)
    requires y in w.nodes && Means(w, node, f, y)
    ensures x in SymbolicFor(w, node, f) && y in Candidates(w, node, x)
  {
    var reason :=
      if y.key == node.key || (node.companion && node.kind == Sml && y.kind == Sig && y.package == node.package && y.logical == node.logical) then Graphs.SignatureCompanionReason
      else if y.logical in w.loads(f.sourceHash) then Graphs.ExtractedLoad
      else if y.logical in w.mentions(f.sourceHash) then Graphs.ExtractedHoldepMention
      else if y.logical in f.declaredDeps then Graphs.DeclaredActionDependency
      else Graphs.DeclaredActionLoad;
    x := Graphs.Fact(node.key, y.logical, reason);
    FactIs(w, node, f, x);
    CandidateIs(w, node, x, y);
    hide SymbolicFor, Candidates;
  }

  /** No node but this one has the name. */
  ghost predicate NoOther(w: World, node: Node, name: string) {
    forall y <- w.nodes :: y.logical == name ==> y.key == node.key
  }

  lemma NoneFound(w: World, node: Node, x: Fact)
    requires x.reason != Graphs.SignatureCompanionReason && x.reason != Graphs.DeclaredExtraInput
    ensures Candidates(w, node, x) == [] <==> NoOther(w, node, x.name)
  {
    var found := Candidates(w, node, x);
    forall y { CandidateIs(w, node, x, y); }
    hide Candidates;
    if found != [] { assert found[0] in found; }
    assert forall y :: y in found ==> found != [];
  }

  /** A library is external by a declared load no other node has the name of; or, not named
      like a theory, by a load or mention of the source that HOL can load and none has. */
  ghost predicate IsExternalLib(w: World, node: Node, f: Facts, l: string) {
    NoOther(w, node, l)
    && (l in f.declaredLoads
        || (!TheoryName(l) && w.available(node.key, l) && (l in w.loads(f.sourceHash) || l in w.mentions(f.sourceHash))))
  }

  /** A theory, by a load of the source that no other node has the name of, or a mention
      that HOL can load too. */
  ghost predicate IsExternalTheory(w: World, node: Node, f: Facts, t: string) {
    NoOther(w, node, t) && TheoryName(t)
    && (t in w.loads(f.sourceHash) || (t in w.mentions(f.sourceHash) && w.available(node.key, t)))
  }

  lemma ExternalIs(w: World, node: Node, x: Fact, e: ExternalEdge)
    ensures e in ExternalOne(w, node, x) <==>
            e.fromNode == x.fromNode && e.name == x.name && e.reason == x.reason
            && match x.reason
               case DeclaredActionLoad => e.kind == Graphs.ExternalLibrary && NoOther(w, node, x.name)
               case DeclaredExtraInput => e.kind == Graphs.ExternalInput
               case ExtractedLoad =>
                 NoOther(w, node, x.name)
                 && if TheoryName(x.name) then e.kind == Graphs.ExternalTheory else e.kind == Graphs.ExternalLibrary && w.available(node.key, x.name)
               case ExtractedHoldepMention =>
                 NoOther(w, node, x.name) && w.available(node.key, x.name)
                 && e.kind == if TheoryName(x.name) then Graphs.ExternalTheory else Graphs.ExternalLibrary
               case _ => false
  {
    if x.reason != Graphs.SignatureCompanionReason && x.reason != Graphs.DeclaredExtraInput { NoneFound(w, node, x); }
    hide Candidates, TheoryName, NoOther;
  }

  lemma ExternalOf(w: World, node: Node, f: Facts, e: ExternalEdge)
    ensures e in ExternalFor(w, node, SymbolicFor(w, node, f)) <==>
            var x := Graphs.Fact(e.fromNode, e.name, e.reason);
            x in SymbolicFor(w, node, f) && e in ExternalOne(w, node, x)
  {
    var facts := SymbolicFor(w, node, f);
    hide SymbolicFor;
    if e in ExternalFor(w, node, facts) {
      var x := ExternalFrom(w, node, facts, e);
      ExternalIs(w, node, x, e);
    }
    var x := Graphs.Fact(e.fromNode, e.name, e.reason);
    if x in facts && e in ExternalOne(w, node, x) {
      FlatMapHas((x: Fact) => ExternalOne(w, node, x), facts, x, e);
    }
  }

  /** The external edges of a node, but those of its inputs. */
  lemma EdgeIs(w: World, node: Node, f: Facts, e: ExternalEdge)
    requires e.kind != Graphs.ExternalInput
    ensures e in ExternalFor(w, node, SymbolicFor(w, node, f)) <==>
            e.fromNode == node.key && NoOther(w, node, e.name)
            && match e.reason
               case DeclaredActionLoad => e.kind == Graphs.ExternalLibrary && e.name in f.declaredLoads
               case ExtractedLoad =>
                 e.name in w.loads(f.sourceHash)
                 && if TheoryName(e.name) then e.kind == Graphs.ExternalTheory else e.kind == Graphs.ExternalLibrary && w.available(node.key, e.name)
               case ExtractedHoldepMention =>
                 e.name in w.mentions(f.sourceHash) && w.available(node.key, e.name)
                 && e.kind == if TheoryName(e.name) then Graphs.ExternalTheory else Graphs.ExternalLibrary
               case _ => false
  {
    var x := Graphs.Fact(e.fromNode, e.name, e.reason);
    ExternalOf(w, node, f, e);
    FactIs(w, node, f, x);
    ExternalIs(w, node, x, e);
    hide SymbolicFor, ExternalFor, ExternalOne, TheoryName, NoOther, InputPaths;
  }

  /** Which external libraries a node has. */
  lemma LibrariesAre(w: World, node: Node, f: Facts, l: string)
    ensures l in ExternalLibs(ExternalFor(w, node, SymbolicFor(w, node, f))) <==> IsExternalLib(w, node, f, l)
  {
    var edges := ExternalFor(w, node, SymbolicFor(w, node, f));
    ListedLibs(edges, l);
    hide SymbolicFor, ExternalFor, ExternalLibs, TheoryName, NoOther;
    if e :| e in edges && e.name == l && e.kind == Graphs.ExternalLibrary { EdgeIs(w, node, f, e); }
    EdgeIs(w, node, f, Graphs.ExternalEdge(node.key, l, Graphs.ExternalLibrary, Graphs.DeclaredActionLoad));
    EdgeIs(w, node, f, Graphs.ExternalEdge(node.key, l, Graphs.ExternalLibrary, Graphs.ExtractedLoad));
    EdgeIs(w, node, f, Graphs.ExternalEdge(node.key, l, Graphs.ExternalLibrary, Graphs.ExtractedHoldepMention));
  }

  /** And which theories. */
  lemma TheoriesAre(w: World, node: Node, f: Facts, t: string)
    ensures t in ExternalTheories(ExternalFor(w, node, SymbolicFor(w, node, f))) <==> IsExternalTheory(w, node, f, t)
  {
    var edges := ExternalFor(w, node, SymbolicFor(w, node, f));
    ListedTheories(edges, t);
    hide SymbolicFor, ExternalFor, ExternalTheories, TheoryName, NoOther;
    if e :| e in edges && e.name == t && e.kind == Graphs.ExternalTheory { EdgeIs(w, node, f, e); }
    EdgeIs(w, node, f, Graphs.ExternalEdge(node.key, t, Graphs.ExternalTheory, Graphs.ExtractedLoad));
    EdgeIs(w, node, f, Graphs.ExternalEdge(node.key, t, Graphs.ExternalTheory, Graphs.ExtractedHoldepMention));
  }

  lemma ListedLibs(edges: seq<ExternalEdge>, name: string)
    ensures name in ExternalLibs(edges) <==>
            exists e <- edges :: e.name == name && e.kind == Graphs.ExternalLibrary
              && (e.reason.DeclaredActionLoad? || e.reason.ExtractedHoldepMention? || e.reason.ExtractedLoad?)
  {
    forall reason: Reason
      ensures name in LibraryNames(edges, reason) <==> exists e <- edges :: e.name == name && e.kind == Graphs.ExternalLibrary && e.reason == reason
    {
      ListedNames(edges, IsLibraryBy(reason), name);
    }
    hide LibraryNames;
  }

  lemma ListedTheories(edges: seq<ExternalEdge>, name: string)
    ensures name in ExternalTheories(edges) <==> exists e <- edges :: e.name == name && e.kind == Graphs.ExternalTheory
  {
    ListedNames(edges, IsTheory, name);
    hide ExternalNames;
  }

  lemma ListedNames(edges: seq<ExternalEdge>, wanted: ExternalEdge -> bool, name: string)
    ensures name in ExternalNames(edges, wanted) <==> exists e <- edges :: e.name == name && wanted(e)
  {
    if name in ExternalNames(edges, wanted) { var e := NameFrom(edges, wanted, name); }
    if e :| e in edges && e.name == name && wanted(e) { NameKept(edges, wanted, e); }
  }

  /** Nothing is unresolved exactly when each declared dependency has another node of its
      name, and each load of the source has, or is named like a theory, or can be loaded. */
  lemma NothingUnresolved(w: World, node: Node, f: Facts)
    ensures UnresolvedFor(w, node, SymbolicFor(w, node, f)) == [] <==>
            (forall d <- f.declaredDeps :: !NoOther(w, node, d))
            && (forall l <- w.loads(f.sourceHash) :: NoOther(w, node, l) ==> TheoryName(l) || w.available(node.key, l))
  {
    var facts := SymbolicFor(w, node, f);
    var unresolved := UnresolvedFor(w, node, facts);
    forall x { FactIs(w, node, f, x); }
    forall x: Fact { UnresolvedIs(w, node, x); }
    hide SymbolicFor, UnresolvedOne, TheoryName, NoOther, InputPaths;
    if unresolved != [] {
      assert unresolved[0] in unresolved;
      var x := FlatMapFrom((x: Fact) => UnresolvedOne(w, node, x), facts, unresolved[0]);
    }
    if d :| d in f.declaredDeps && NoOther(w, node, d) {
      var x := Graphs.Fact(node.key, d, Graphs.DeclaredActionDependency);
      FlatMapHas((x: Fact) => UnresolvedOne(w, node, x), facts, x, x);
    }
    if l :| l in w.loads(f.sourceHash) && NoOther(w, node, l) && !TheoryName(l) && !w.available(node.key, l) {
      var x := Graphs.Fact(node.key, l, Graphs.ExtractedLoad);
      FlatMapHas((x: Fact) => UnresolvedOne(w, node, x), facts, x, x);
    }
  }

  lemma UnresolvedIs(w: World, node: Node, x: Fact)
    ensures UnresolvedOne(w, node, x) ==
            if (x.reason.DeclaredActionDependency? || (x.reason.ExtractedLoad? && !TheoryName(x.name) && !w.available(node.key, x.name)))
               && NoOther(w, node, x.name) then [x] else []
  {
    if x.reason != Graphs.SignatureCompanionReason && x.reason != Graphs.DeclaredExtraInput { NoneFound(w, node, x); }
    hide Candidates, TheoryName, NoOther;
  }

  // ------------------------------------------------------------ the plans it makes are resolved

  lemma DependencyName(w: World, plan: Plan, y: Node)
    requires AllPlanned(w, plan) && y in w.nodes && y.key in plan.selected
    ensures y.key in plan.facts && plan.facts[y.key].logical == y.logical
  {
    var z: Node :| z.key == y.key && Planned(w, plan, z);
    assert z == y;
  }

  lemma NoTheoryReadsAsDep(w: World, node: Node, f: Facts)
    ensures forall t <- ExternalTheories(ExternalFor(w, node, SymbolicFor(w, node, f))) :: !ReadsAsDep("HOL:" + t)
  {
    hide SymbolicFor, ExternalFor, ExternalTheories, ReadsAsDep, TheoryName;
    forall t <- ExternalTheories(ExternalFor(w, node, SymbolicFor(w, node, f)))
      ensures !ReadsAsDep("HOL:" + t)
    {
      TheoryIsNamed(w, node, f, t);
      TheoryReadsAsNone("HOL:", t);
    }
  }

  lemma DependencyHasOtherName(w: World, plan: Plan, node: Node, f: Facts, d: Key)
    requires AllPlanned(w, plan) && node in w.nodes && d in plan.selected
    requires d in ResolvedFor(w, node, SymbolicFor(w, node, f))
    ensures d in plan.facts && plan.facts[d].logical !in ExternalLibs(ExternalFor(w, node, SymbolicFor(w, node, f)))
  {
    hide SymbolicFor, ExternalFor, ExternalLibs, ResolvedFor, Planned;
    var y := TargetIsNamed(w, node, f, d);
    DependencyName(w, plan, y);
    if y.logical in ExternalLibs(ExternalFor(w, node, SymbolicFor(w, node, f))) {
      LibraryIsNoDependency(w, node, f, y.logical, d);
    }
  }

  lemma LoadIsResolvedInPlan(w: World, plan: Plan, node: Node, f: Facts, l: string)
    requires AllPlanned(w, plan) && node in w.nodes && UnresolvedFor(w, node, SymbolicFor(w, node, f)) == []
    requires forall d <- ResolvedFor(w, node, SymbolicFor(w, node, f)) :: d in plan.selected && d in plan.facts
    requires l in Loads(Found(w), f) && ReadsAsDep("HOLLIB:" + l)
    ensures l in ExternalLibs(ExternalFor(w, node, SymbolicFor(w, node, f)))
            || exists d <- ResolvedFor(w, node, SymbolicFor(w, node, f)) :: plan.facts[d].logical == l
  {
    hide SymbolicFor, ExternalFor, ExternalLibs, ResolvedFor, UnresolvedFor, Loads, Found, ReadsAsDep, Planned;
    LoadIsResolved(w, node, f, l);
    if l !in ExternalLibs(ExternalFor(w, node, SymbolicFor(w, node, f))) {
      var y: Node :| y in w.nodes && y.logical == l && y.key in ResolvedFor(w, node, SymbolicFor(w, node, f));
      DependencyName(w, plan, y);
    }
  }

  /** Each node's dependencies and external objects stand to one another as its lines need. */
  lemma PlannedIsResolved(w: World, plan: Plan, node: Node)
    requires AllPlanned(w, plan) && DepsFirst(plan.graph, plan.selected)
    requires node.key in plan.selected && Planned(w, plan, node)
    ensures Resolved(Found(w), plan, node.key)
  {
    var f := plan.facts[node.key];
    var facts := SymbolicFor(w, node, f);
    var (targets, edges) := (ResolvedFor(w, node, facts), ExternalFor(w, node, facts));
    DepsAreSelected(plan, node.key);
    OfSane(w, plan);
    assert forall d :: d in DirectDeps(plan, node.key) <==> d in targets;
    assert f.externalLibs == ExternalLibs(edges) && f.externalTheories == ExternalTheories(edges);
    hide SymbolicFor, ExternalFor, ResolvedFor, ExternalLibs, ExternalTheories, UnresolvedFor, ReadsAsDep, TheoryName, Loads, Found, DirectDeps, Edges, DepsFirst, AllPlanned, Sane, Resolved;
    LibrariesOnce(edges);
    NoTheoryReadsAsDep(w, node, f);
    forall l <- f.externalLibs | ReadsAsDep("HOLLIB:" + l)
      ensures l in Loads(Found(w), f)
    {
      LibraryIsLoad(w, node, f, l);
    }
    forall d <- targets
      ensures d in plan.facts && plan.facts[d].logical !in f.externalLibs
    {
      DependencyHasOtherName(w, plan, node, f, d);
    }
    forall l <- Loads(Found(w), f) | ReadsAsDep("HOLLIB:" + l)
      ensures l in f.externalLibs || exists d <- targets :: plan.facts[d].logical == l
    {
      LoadIsResolvedInPlan(w, plan, node, f, l);
    }
    AsResolved(Found(w), plan, node.key, targets);
  }

  lemma AsResolved(found: string -> set<string>, plan: Plan, n: Key, targets: seq<Key>)
    requires n in plan.facts && (forall d :: d in DirectDeps(plan, n) <==> d in targets) && (forall d <- targets :: d in plan.facts)
    requires var libs := plan.facts[n].externalLibs; forall i, j | 0 <= i < j < |libs| :: libs[i] != libs[j]
    requires forall t <- plan.facts[n].externalTheories :: !ReadsAsDep("HOL:" + t)
    requires forall l <- plan.facts[n].externalLibs :: ReadsAsDep("HOLLIB:" + l) ==> l in Loads(found, plan.facts[n])
    requires forall d <- targets :: plan.facts[d].logical !in plan.facts[n].externalLibs
    requires forall l <- Loads(found, plan.facts[n]) :: ReadsAsDep("HOLLIB:" + l) ==>
               l in plan.facts[n].externalLibs || exists d <- targets :: plan.facts[d].logical == l
    ensures Resolved(found, plan, n)
  {
    hide DirectDeps, ReadsAsDep, Loads;
  }

  lemma OfSane(w: World, plan: Plan)
    requires AllPlanned(w, plan)
    ensures Sane(w)
  {}

  lemma DepsAreSelected(plan: Plan, n: Key)
    requires DepsFirst(plan.graph, plan.selected) && n in plan.selected
    ensures forall d <- DirectDeps(plan, n) :: d in plan.selected
  {
    var i :| 0 <= i < |plan.selected| && plan.selected[i] == n;
    forall d <- DirectDeps(plan, n)
      ensures d in plan.selected
    {
      assert d in plan.selected[..i];
    }
  }

  lemma LibrariesOnce(edges: seq<ExternalEdge>)
    ensures var libs := ExternalLibs(edges); forall i, j | 0 <= i < j < |libs| :: libs[i] != libs[j]
  {
    UniqueOnce(LibraryNames(edges, Graphs.DeclaredActionLoad) + LibraryNames(edges, Graphs.ExtractedHoldepMention) +
               LibraryNames(edges, Graphs.ExtractedLoad), {});
  }

  lemma AllPlannedIsResolved(w: World, plan: Plan)
    requires AllPlanned(w, plan) && DepsFirst(plan.graph, plan.selected)
    ensures AllResolved(Found(w), plan)
  {
    hide Planned, Resolved, DepsFirst;
    forall n <- plan.selected
      ensures Resolved(Found(w), plan, n)
    {
      var node: Node :| node.key == n && Planned(w, plan, node);
      PlannedIsResolved(w, plan, node);
    }
  }

  // ------------------------------------------------------------ so their keys commit

  /** The plan's fields are single lines, and its configuration line is the callers'. */
  ghost predicate CalledFor(plan: Plan, manifestVersion: string) {
    && DepsFirst(plan.graph, plan.selected) && OneLine(plan.toolchainKey) && OneLine(manifestVersion)
    && forall n <- plan.selected :: n in plan.facts && n in plan.configLines
         && CleanFacts(plan.facts[n]) && plan.configLines[n] == PolicyConfigLines(manifestVersion)
  }

  lemma CalledForIsWellFormed(plan: Plan, manifestVersion: string)
    requires CalledFor(plan, manifestVersion)
    ensures WellFormed(plan)
  {
    CallersAreClean(manifestVersion);
    hide CleanConfig, CleanFacts, DepsFirst, OneLine, PolicyConfigLines;
  }

  /** In any two plans the planner makes, of worlds where equal sources have equal loads,
      a key commits to its node's whole closure. */
  lemma PlannedKeysCommit(hash: Hash, texts: set<string>, w: World, plan: Plan, manifestVersion: string, keys: Keys, n: Key,
                          w': World, plan': Plan, manifestVersion': string, keys': Keys, m: Key, path: seq<nat>)
    requires AllPlanned(w, plan) && CalledFor(plan, manifestVersion) && CoversFresh(hash, texts, plan)
    requires AllPlanned(w', plan') && CalledFor(plan', manifestVersion') && CoversFresh(hash, texts, plan')
    requires Digest(hash, texts) && w.loads == w'.loads
    requires FreshKeys(hash, plan, |plan.selected|) == Some(keys) && FreshKeys(hash, plan', |plan'.selected|) == Some(keys')
    requires n in plan.selected && m in plan'.selected
    ensures n in keys && m in keys' && (keys[n] == keys'[m] ==> WalksAlike(plan, keys, n, plan', keys', m, path))
  {
    CalledForIsWellFormed(plan, manifestVersion);
    CalledForIsWellFormed(plan', manifestVersion');
    AllPlannedIsResolved(w, plan);
    AllPlannedIsResolved(w', plan');
    FreshIsComputed(hash, texts, plan);
    FreshIsComputed(hash, texts, plan');
    SameFound(w, w');
    hide AllPlanned, CalledFor, CoversFresh, WalksAlike, Digest, Found, AllResolved, FreshKeys, WellFormed, Covers;
    assert Keyed(hash, plan, keys, n) && Keyed(hash, plan', keys', m);
    if keys[n] == keys'[m] {
      KeyCommitsToClosure(hash, texts, Found(w), plan, keys, n, plan', keys', m, path);
    }
  }

  /** In any two plans the planner makes, keys computed afresh and equal are of nodes equal
      in every fact, whose dependencies have equal keys in the same order. */
  lemma PlannedKeysSay(hash: Hash, texts: set<string>, w: World, plan: Plan, v: string, keys: Keys, n: Key,
                       w': World, plan': Plan, v': string, keys': Keys, m: Key)
    requires AllPlanned(w, plan) && CalledFor(plan, v) && CoversFresh(hash, texts, plan)
    requires AllPlanned(w', plan') && CalledFor(plan', v') && CoversFresh(hash, texts, plan')
    requires Digest(hash, texts) && w.loads == w'.loads
    requires FreshKeys(hash, plan, |plan.selected|) == Some(keys) && FreshKeys(hash, plan', |plan'.selected|) == Some(keys')
    requires n in plan.selected && m in plan'.selected && n in keys && m in keys' && keys[n] == keys'[m]
    ensures n in plan.facts && m in plan'.facts && SameFacts(plan.facts[n], plan'.facts[m])
    ensures plan.toolchainKey == plan'.toolchainKey && v == v' && PlanKeys.Lookup(keys, DirectDeps(plan, n)) == PlanKeys.Lookup(keys', DirectDeps(plan', m))
  {
    CalledForIsWellFormed(plan, v);
    CalledForIsWellFormed(plan', v');
    AllPlannedIsResolved(w, plan);
    AllPlannedIsResolved(w', plan');
    FreshIsComputed(hash, texts, plan);
    FreshIsComputed(hash, texts, plan');
    SameFound(w, w');
    hide AllPlanned, CoversFresh, Digest, Found, FreshKeys, WellFormed, Covers, Computed, Resolved, SameFacts, PlanKeys.Lookup, DirectDeps, CleanFacts, PolicyConfigLines;
    KeySaysFacts(hash, texts, Found(w), plan, keys, n, v, plan', keys', m, v');
  }

  lemma SameFound(w: World, w': World)
    requires w.loads == w'.loads
    ensures Found(w) == Found(w')
  {}

  // ------------------------------------------------------------ it happens

  /** A node that declares `load` and names nothing else. */
  function LoaderFacts(load: string): Facts {
    Facts("sml", "p", "A", "A.sml", "s", None, true, false, [], [load], [], [], [], [load])
  }

  function LoaderPlan(load: string): Plan {
    Plan(map["a" := []], ["a"], map["a" := LoaderFacts(load)], "t", map["a" := PolicyConfigLines("2")])
  }

  function LoaderWorld(): World {
    World([Node("a", "p", "A", Sml, false)], (source: string) => [], (source: string) => [], (key: Key, name: string) => false)
  }

  lemma NoCandidates(fact: Fact)
    requires fact.reason.DeclaredActionLoad?
    ensures Candidates(LoaderWorld(), LoaderWorld().nodes[0], fact) == []
  {
    var found := Candidates(LoaderWorld(), LoaderWorld().nodes[0], fact);
    assert forall x <- found :: x in LoaderWorld().nodes && x.key != "a";
  }

  lemma NamesOfOne(edge: ExternalEdge, wanted: ExternalEdge -> bool)
    ensures ExternalNames([edge], wanted) == if wanted(edge) then [edge.name] else []
  {
    FlatMapOne((e: ExternalEdge) => if wanted(e) then [e.name] else [], edge);
  }

  lemma OneLibraryNamed(edge: ExternalEdge)
    requires edge.kind == Graphs.ExternalLibrary && edge.reason == Graphs.DeclaredActionLoad
    ensures ExternalLibs([edge]) == [edge.name] && ExternalTheories([edge]) == []
  {
    NamesOfOne(edge, IsTheory);
    NamesOfOne(edge, IsLibraryBy(Graphs.DeclaredActionLoad));
    NamesOfOne(edge, IsLibraryBy(Graphs.ExtractedHoldepMention));
    NamesOfOne(edge, IsLibraryBy(Graphs.ExtractedLoad));
    hide ExternalNames;
    assert [edge.name] + [] + [] == [edge.name];
    assert Unique([edge.name], {}) == [edge.name] + Unique([edge.name][1..], {edge.name});
  }

  lemma LoaderNames(load: string)
    ensures SymbolicFor(LoaderWorld(), LoaderWorld().nodes[0], LoaderFacts(load)) == [Graphs.Fact("a", load, Graphs.DeclaredActionLoad)]
  {
    var w := LoaderWorld();
    assert FactsOf("a", Graphs.DeclaredActionLoad, [load]) == [Graphs.Fact("a", load, Graphs.DeclaredActionLoad)];
    assert w.loads("s") == [] && w.mentions("s") == [];
  }

  lemma LoaderResolves(w: World, node: Node, load: string)
    requires node.key == "a"
    requires forall fact: Fact | fact.reason.DeclaredActionLoad? :: Candidates(w, node, fact) == []
    ensures var (fact, edge) := (Graphs.Fact("a", load, Graphs.DeclaredActionLoad),
                                 Graphs.ExternalEdge("a", load, Graphs.ExternalLibrary, Graphs.DeclaredActionLoad));
            ResolvedFor(w, node, [fact]) == [] && ExternalFor(w, node, [fact]) == [edge] && UnresolvedFor(w, node, [fact]) == []
  {
    hide Candidates;
    var fact := Graphs.Fact("a", load, Graphs.DeclaredActionLoad);
    assert Targets(w, node)(fact) == KeysOfNodes([]) == [];
    FlatMapOne(Targets(w, node), fact);
    FlatMapOne((x: Fact) => ExternalOne(w, node, x), fact);
    FlatMapOne((x: Fact) => UnresolvedOne(w, node, x), fact);
  }

  lemma LoaderIsPlanned(load: string)
    ensures Planned(LoaderWorld(), LoaderPlan(load), LoaderWorld().nodes[0])
  {
    var (w, plan) := (LoaderWorld(), LoaderPlan(load));
    var node := w.nodes[0];
    forall fact: Fact | fact.reason.DeclaredActionLoad? { NoCandidates(fact); }
    LoaderNames(load);
    assert Edges(plan.graph, "a") == [] && node.key == "a" && node in w.nodes;
    hide SymbolicFor, Candidates, Edges, PolicyConfigLines, LoaderWorld, ResolvedFor, ExternalFor, UnresolvedFor, ExternalLibs, ExternalTheories;
    LoaderResolves(w, node, load);
    OneLibraryNamed(Graphs.ExternalEdge("a", load, Graphs.ExternalLibrary, Graphs.DeclaredActionLoad));
  }

  lemma LoaderIsCalledFor(load: string)
    requires OneLine(load)
    ensures CalledFor(LoaderPlan(load), "2")
  {
    hide PolicyConfigLines;
    assert CleanFacts(LoaderFacts(load));
  }

  lemma LoadReads(key: string)
    requires IsSha(key)
    ensures OneLine("x@" + key) && ReadsAsDep("HOLLIB:" + ("x@" + key))
  {
    ReadsAsItsDep("HOLLIB:x", key);
    assert "HOLLIB:" + ("x@" + key) == "HOLLIB:x" + "@" + key;
    hide ReadsAsDep;
    ShaIsOneLine(key);
  }

  /** The planner makes a plan in which a node loads what reads as a dependency. */
  lemma LoadReadsAsDependency(key: string)
    requires IsSha(key)
    ensures var (load, w, plan) := ("x@" + key, LoaderWorld(), LoaderPlan("x@" + key));
            && AllPlanned(w, plan) && CalledFor(plan, "2")
            && load in plan.facts["a"].externalLibs && ReadsAsDep("HOLLIB:" + load)
  {
    hide CalledFor, Planned, ReadsAsDep, OneLine, IsSha, PolicyConfigLines;
    LoadReads(key);
    LoaderIsPlanned("x@" + key);
    LoaderIsCalledFor("x@" + key);
  }
}
