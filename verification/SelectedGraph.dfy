/** The identity of a resolved dependency graph: length-framed sections, each sorted,
    of nodes and edges written with their bound ids. The hash is a parameter. */
module SelectedGraph {
  import opened Wrappers
  import opened Collections
  import opened Text
  import opened KeyIndex

  type Hash = string -> string

  datatype Node = Node(key: Key, package: string, sourceId: string)

  datatype Reason =
    | ExtractedLoad
    | ExtractedHoldepMention
    | DeclaredActionDependency
    | DeclaredActionLoad
    | DeclaredExtraInput
    | SignatureCompanionReason

  datatype ExternalKind = ExternalTheory | ExternalLibrary | ExternalInput

  datatype Fact = Fact(fromNode: Key, name: string, reason: Reason)   // symbolic, or unresolved
  datatype ResolvedEdge = ResolvedEdge(fromNode: Key, toNode: Key, symbolicName: string, reason: Reason)
  datatype ExternalEdge = ExternalEdge(fromNode: Key, name: string, kind: ExternalKind, reason: Reason)

  datatype Graph = Graph(
    symbolic: Index<seq<Fact>>,
    resolved: Index<seq<ResolvedEdge>>,
    external: Index<seq<ExternalEdge>>,
    unresolved: Index<seq<Fact>>,
    reverse: Index<seq<ResolvedEdge>>)

  function ReasonText(reason: Reason): string {
    match reason
    case ExtractedLoad => "extracted-load"
    case ExtractedHoldepMention => "holdep-mention"
    case DeclaredActionDependency => "declared-dependency"
    case DeclaredActionLoad => "declared-load"
    case DeclaredExtraInput => "extra-input"
    case SignatureCompanionReason => "signature-companion"
  }

  function KindText(kind: ExternalKind): string {
    match kind
    case ExternalTheory => "theory"
    case ExternalLibrary => "library"
    case ExternalInput => "input"
  }

  /** `vector_values` */
  function VectorValues<T>(index: Index<seq<T>>): seq<T> {
    if index == [] then [] else index[0].1 + VectorValues(index[1..])
  }

  function BoundNodeId(hash: Hash, node: Node): string {
    hash(Fields(["holbuild-resolved-node-v1", node.package, node.sourceId]))
  }

  function Keys(nodes: seq<Node>): seq<Key> {
    Map((n: Node) => n.key, nodes)
  }

  function NodeId(nodes: seq<Node>, key: Key): (id: Option<nat>)
    ensures match id case Some(i) => i < |nodes| && nodes[i].key == key && key in Keys(nodes) case None => key !in Keys(nodes)
  {
    FindSound(Enumerated(Keys(nodes)), key);
    assert Find(BuildKeyIndex(Keys(nodes)), key) == None ==> forall i | 0 <= i < |nodes| :: Enumerated(Keys(nodes))[i] == (Keys(nodes)[i], i);
    Find(BuildKeyIndex(Keys(nodes)), key)
  }

  /** `canonical_node_for`; every key asked for is a node's where the text is made. */
  function CanonicalNodeFor(hash: Hash, nodes: seq<Node>, key: Key): string {
    match NodeId(nodes, key)
    case Some(i) => BoundNodeId(hash, nodes[i])
    case None => ""
  }

  // ------------------------------------------------------------ rows

  /** The fields of an edge's text: its ends by bound id, and what it says. */
  function FactRow(hash: Hash, nodes: seq<Node>, e: Fact): seq<string> {
    [CanonicalNodeFor(hash, nodes, e.fromNode), ReasonText(e.reason), e.name]
  }

  function ResolvedRow(hash: Hash, nodes: seq<Node>, e: ResolvedEdge): seq<string> {
    [CanonicalNodeFor(hash, nodes, e.fromNode), CanonicalNodeFor(hash, nodes, e.toNode), ReasonText(e.reason), e.symbolicName]
  }

  function ExternalRow(hash: Hash, nodes: seq<Node>, e: ExternalEdge): seq<string> {
    [CanonicalNodeFor(hash, nodes, e.fromNode), KindText(e.kind), ReasonText(e.reason), e.name]
  }

  datatype Rows = Rows(
    nodes: seq<string>,
    symbolic: seq<seq<string>>,
    resolved: seq<seq<string>>,
    external: seq<seq<string>>,
    unresolved: seq<seq<string>>,
    reverse: seq<seq<string>>)

  function GraphRows(hash: Hash, nodes: seq<Node>, graph: Graph): Rows {
    var fact := e => FactRow(hash, nodes, e);
    var resolved := e => ResolvedRow(hash, nodes, e);
    Rows(Map(n => BoundNodeId(hash, n), nodes),
         Map(fact, VectorValues(graph.symbolic)),
         Map(resolved, VectorValues(graph.resolved)),
         Map(e => ExternalRow(hash, nodes, e), VectorValues(graph.external)),
         Map(fact, VectorValues(graph.unresolved)),
         Map(resolved, VectorValues(graph.reverse)))
  }

  // ------------------------------------------------------------ the text

  /** `canonical_list` */
  function CanonicalList(tag: string, values: seq<string>): seq<string> {
    [tag, Decimal(|values|)] + values
  }

  function Section(tag: string, rows: seq<seq<string>>): seq<string> {
    CanonicalList(tag, SortStrings(Map(Fields, rows)))
  }

  function RowsFields(rows: Rows): seq<string> {
    ["holbuild-selected-dependency-graph-v1"] +
    (CanonicalList("nodes", SortStrings(rows.nodes)) +
     (Section("symbolic", rows.symbolic) +
      (Section("resolved", rows.resolved) +
       (Section("external", rows.external) +
        (Section("unresolved", rows.unresolved) + Section("reverse", rows.reverse))))))
  }

  /** Every end of an edge is a node: `indexed_key_id` raises otherwise. */
  predicate Within(nodes: seq<Node>, graph: Graph) {
    var keys := Keys(nodes);
    && (forall e <- VectorValues(graph.symbolic) + VectorValues(graph.unresolved) :: e.fromNode in keys)
    && (forall e <- VectorValues(graph.resolved) + VectorValues(graph.reverse) :: e.fromNode in keys && e.toNode in keys)
    && (forall e <- VectorValues(graph.external) :: e.fromNode in keys)
  }

  function SelectedGraphText(hash: Hash, nodes: seq<Node>, graph: Graph): Option<string> {
    if Within(nodes, graph) then Some(Fields(RowsFields(GraphRows(hash, nodes, graph)))) else None
  }

  // ------------------------------------------------------------ what equal texts mean

  lemma ListPrefix(tag: string, xs: seq<string>, ys: seq<string>, r: seq<string>, s: seq<string>)
    requires CanonicalList(tag, xs) + r == CanonicalList(tag, ys) + s
    ensures xs == ys && r == s
  {
    var all := CanonicalList(tag, xs) + r;
    assert Decimal(|xs|) == all[1] == Decimal(|ys|);
    DecimalRoundTrip(|xs|);
    DecimalRoundTrip(|ys|);
    assert xs == all[2..2 + |xs|] == ys;
    assert r == all[2 + |xs|..] == s;
  }

  lemma SectionSame(tag: string, xs: seq<seq<string>>, ys: seq<seq<string>>)
    ensures Section(tag, xs) == Section(tag, ys) <==> multiset(xs) == multiset(ys)
  {
    var fx, fy := Map(Fields, xs), Map(Fields, ys);
    SortCanonical(fx, fy);
    if Section(tag, xs) == Section(tag, ys) {
      ListPrefix(tag, SortStrings(fx), SortStrings(fy), [], []);
      forall x, y | Fields(x) == Fields(y)
        ensures x == y
      {
        FieldsDecodable(x, y);
      }
      PermutationOfMap(Fields, xs, ys);
    }
    if multiset(xs) == multiset(ys) {
      MapOfPermutation(Fields, xs, ys);
    }
  }

  ghost predicate SameRows(a: Rows, b: Rows) {
    && multiset(a.nodes) == multiset(b.nodes)
    && multiset(a.symbolic) == multiset(b.symbolic)
    && multiset(a.resolved) == multiset(b.resolved)
    && multiset(a.external) == multiset(b.external)
    && multiset(a.unresolved) == multiset(b.unresolved)
    && multiset(a.reverse) == multiset(b.reverse)
  }

  lemma NodesSame(xs: seq<string>, ys: seq<string>)
    ensures CanonicalList("nodes", SortStrings(xs)) == CanonicalList("nodes", SortStrings(ys)) <==> multiset(xs) == multiset(ys)
  {
    SortCanonical(xs, ys);
    if CanonicalList("nodes", SortStrings(xs)) == CanonicalList("nodes", SortStrings(ys)) {
      ListPrefix("nodes", SortStrings(xs), SortStrings(ys), [], []);
    }
  }

  /** Sections come apart where their counts say. */
  lemma RowsFieldsApart(a: Rows, b: Rows)
    requires RowsFields(a) == RowsFields(b)
    ensures CanonicalList("nodes", SortStrings(a.nodes)) == CanonicalList("nodes", SortStrings(b.nodes))
    ensures Section("symbolic", a.symbolic) == Section("symbolic", b.symbolic)
    ensures Section("resolved", a.resolved) == Section("resolved", b.resolved)
    ensures Section("external", a.external) == Section("external", b.external)
    ensures Section("unresolved", a.unresolved) == Section("unresolved", b.unresolved)
    ensures Section("reverse", a.reverse) == Section("reverse", b.reverse)
  {
    hide CanonicalList, SortStrings;
    var v, w := Section("reverse", a.reverse), Section("reverse", b.reverse);
    var u, x := Section("unresolved", a.unresolved) + v, Section("unresolved", b.unresolved) + w;
    var e, f := Section("external", a.external) + u, Section("external", b.external) + x;
    var r, q := Section("resolved", a.resolved) + e, Section("resolved", b.resolved) + f;
    var y, z := Section("symbolic", a.symbolic) + r, Section("symbolic", b.symbolic) + q;
    assert RowsFields(a)[1..] == CanonicalList("nodes", SortStrings(a.nodes)) + y;
    assert RowsFields(b)[1..] == CanonicalList("nodes", SortStrings(b.nodes)) + z;
    ListPrefix("nodes", SortStrings(a.nodes), SortStrings(b.nodes), y, z);
    ListPrefix("symbolic", SortStrings(Map(Fields, a.symbolic)), SortStrings(Map(Fields, b.symbolic)), r, q);
    ListPrefix("resolved", SortStrings(Map(Fields, a.resolved)), SortStrings(Map(Fields, b.resolved)), e, f);
    ListPrefix("external", SortStrings(Map(Fields, a.external)), SortStrings(Map(Fields, b.external)), u, x);
    ListPrefix("unresolved", SortStrings(Map(Fields, a.unresolved)), SortStrings(Map(Fields, b.unresolved)), v, w);
  }

  /** Two graphs have the same text exactly when they have the same nodes and the same
      edges of each kind, as multisets, by bound id: neither the order of nodes and
      edges nor the way edges are grouped shows, and nothing else is lost. */
  lemma GraphTextIdentity(hash: Hash, nodes: seq<Node>, graph: Graph, nodes': seq<Node>, graph': Graph)
    requires Within(nodes, graph) && Within(nodes', graph')
    ensures SelectedGraphText(hash, nodes, graph) == SelectedGraphText(hash, nodes', graph')
            <==> SameRows(GraphRows(hash, nodes, graph), GraphRows(hash, nodes', graph'))
  {
    var a, b := GraphRows(hash, nodes, graph), GraphRows(hash, nodes', graph');
    hide GraphRows, Within, RowsFields, Section, SortStrings;
    NodesSame(a.nodes, b.nodes);
    SectionSame("symbolic", a.symbolic, b.symbolic);
    SectionSame("resolved", a.resolved, b.resolved);
    SectionSame("external", a.external, b.external);
    SectionSame("unresolved", a.unresolved, b.unresolved);
    SectionSame("reverse", a.reverse, b.reverse);
    if Fields(RowsFields(a)) == Fields(RowsFields(b)) {
      FieldsDecodable(RowsFields(a), RowsFields(b));
      RowsFieldsApart(a, b);
    }
    if SameRows(a, b) {
      RowsFieldsTogether(a, b);
    }
  }

  lemma RowsFieldsTogether(a: Rows, b: Rows)
    requires CanonicalList("nodes", SortStrings(a.nodes)) == CanonicalList("nodes", SortStrings(b.nodes))
    requires Section("symbolic", a.symbolic) == Section("symbolic", b.symbolic)
    requires Section("resolved", a.resolved) == Section("resolved", b.resolved)
    requires Section("external", a.external) == Section("external", b.external)
    requires Section("unresolved", a.unresolved) == Section("unresolved", b.unresolved)
    requires Section("reverse", a.reverse) == Section("reverse", b.reverse)
    ensures RowsFields(a) == RowsFields(b)
  {
    hide CanonicalList, SortStrings, Section;
  }

  /** A row says its edge, up to the nodes' bound ids. */
  lemma RowsSayEdges(hash: Hash, nodes: seq<Node>, nodes': seq<Node>)
    ensures forall e, f :: FactRow(hash, nodes, e) == FactRow(hash, nodes', f) ==>
              e.reason == f.reason && e.name == f.name
              && CanonicalNodeFor(hash, nodes, e.fromNode) == CanonicalNodeFor(hash, nodes', f.fromNode)
    ensures forall e, f :: ResolvedRow(hash, nodes, e) == ResolvedRow(hash, nodes', f) ==>
              e.reason == f.reason && e.symbolicName == f.symbolicName
              && CanonicalNodeFor(hash, nodes, e.fromNode) == CanonicalNodeFor(hash, nodes', f.fromNode)
              && CanonicalNodeFor(hash, nodes, e.toNode) == CanonicalNodeFor(hash, nodes', f.toNode)
    ensures forall e, f :: ExternalRow(hash, nodes, e) == ExternalRow(hash, nodes', f) ==>
              e.reason == f.reason && e.name == f.name && e.kind == f.kind
              && CanonicalNodeFor(hash, nodes, e.fromNode) == CanonicalNodeFor(hash, nodes', f.fromNode)
  {
    hide CanonicalNodeFor;
    ReasonsDiffer();
    forall e, f | FactRow(hash, nodes, e) == FactRow(hash, nodes', f)
      ensures e.reason == f.reason && e.name == f.name
              && CanonicalNodeFor(hash, nodes, e.fromNode) == CanonicalNodeFor(hash, nodes', f.fromNode)
    {
      var r, s := FactRow(hash, nodes, e), FactRow(hash, nodes', f);
      assert r[0] == s[0] && r[1] == s[1] && r[2] == s[2];
    }
    forall e, f | ResolvedRow(hash, nodes, e) == ResolvedRow(hash, nodes', f)
      ensures e.reason == f.reason && e.symbolicName == f.symbolicName
              && CanonicalNodeFor(hash, nodes, e.fromNode) == CanonicalNodeFor(hash, nodes', f.fromNode)
              && CanonicalNodeFor(hash, nodes, e.toNode) == CanonicalNodeFor(hash, nodes', f.toNode)
    {
      var r, s := ResolvedRow(hash, nodes, e), ResolvedRow(hash, nodes', f);
      assert r[0] == s[0] && r[1] == s[1] && r[2] == s[2] && r[3] == s[3];
    }
    forall e, f | ExternalRow(hash, nodes, e) == ExternalRow(hash, nodes', f)
      ensures e.reason == f.reason && e.name == f.name && e.kind == f.kind
              && CanonicalNodeFor(hash, nodes, e.fromNode) == CanonicalNodeFor(hash, nodes', f.fromNode)
    {
      var r, s := ExternalRow(hash, nodes, e), ExternalRow(hash, nodes', f);
      assert r[0] == s[0] && r[1] == s[1] && r[2] == s[2] && r[3] == s[3];
    }
  }

  lemma ReasonsDiffer()
    ensures forall r, s :: ReasonText(r) == ReasonText(s) ==> r == s
    ensures forall k, l :: KindText(k) == KindText(l) ==> k == l
  {
    forall r, s | ReasonText(r) == ReasonText(s)
      ensures r == s
    {
      assert ReasonText(r)[0] == ReasonText(s)[0];
      assert |ReasonText(r)| == |ReasonText(s)|;
    }
    forall k, l | KindText(k) == KindText(l)
      ensures k == l
    {
      assert KindText(k)[0] == KindText(l)[0];
    }
  }

  // ------------------------------------------------------------ when no two sources collide

  /** What a bound id stands for: a source of a package. */
  datatype End = End(package: string, sourceId: string)

  datatype RealFact = RealFact(fromEnd: End, name: string, reason: Reason)
  datatype RealResolved = RealResolved(fromEnd: End, toEnd: End, symbolicName: string, reason: Reason)
  datatype RealExternal = RealExternal(fromEnd: End, name: string, kind: ExternalKind, reason: Reason)

  /** A graph with the sources themselves at its edges' ends. */
  datatype Meaning = Meaning(
    nodes: seq<End>,
    symbolic: seq<RealFact>,
    resolved: seq<RealResolved>,
    external: seq<RealExternal>,
    unresolved: seq<RealFact>,
    reverse: seq<RealResolved>)

  function EndOf(node: Node): End {
    End(node.package, node.sourceId)
  }

  /** The end a key is; every key of an edge is a node's in a graph within its nodes. */
  function EndAt(nodes: seq<Node>, key: Key): End {
    match NodeId(nodes, key)
    case Some(i) => EndOf(nodes[i])
    case None => End("", "")
  }

  function FactMeant(nodes: seq<Node>, e: Fact): RealFact {
    RealFact(EndAt(nodes, e.fromNode), e.name, e.reason)
  }

  function ResolvedMeant(nodes: seq<Node>, e: ResolvedEdge): RealResolved {
    RealResolved(EndAt(nodes, e.fromNode), EndAt(nodes, e.toNode), e.symbolicName, e.reason)
  }

  function ExternalMeant(nodes: seq<Node>, e: ExternalEdge): RealExternal {
    RealExternal(EndAt(nodes, e.fromNode), e.name, e.kind, e.reason)
  }

  function MeaningOf(nodes: seq<Node>, graph: Graph): Meaning {
    var fact := e => FactMeant(nodes, e);
    var resolved := e => ResolvedMeant(nodes, e);
    Meaning(Map(EndOf, nodes),
            Map(fact, VectorValues(graph.symbolic)),
            Map(resolved, VectorValues(graph.resolved)),
            Map(e => ExternalMeant(nodes, e), VectorValues(graph.external)),
            Map(fact, VectorValues(graph.unresolved)),
            Map(resolved, VectorValues(graph.reverse)))
  }

  ghost predicate SameMeaning(a: Meaning, b: Meaning) {
    && multiset(a.nodes) == multiset(b.nodes)
    && multiset(a.symbolic) == multiset(b.symbolic)
    && multiset(a.resolved) == multiset(b.resolved)
    && multiset(a.external) == multiset(b.external)
    && multiset(a.unresolved) == multiset(b.unresolved)
    && multiset(a.reverse) == multiset(b.reverse)
  }

  /** The text whose hash is an end's bound id. */
  function EndText(e: End): string {
    Fields(["holbuild-resolved-node-v1", e.package, e.sourceId])
  }

  function EndId(hash: Hash, e: End): string {
    hash(EndText(e))
  }

  function Ends(nodes: seq<Node>): set<End> {
    set e | e in Map(EndOf, nodes)
  }

  /** The hash has no collision among the texts of these ends. */
  ghost predicate CollisionFree(hash: Hash, ends: set<End>) {
    forall d <- ends, e <- ends :: hash(EndText(d)) == hash(EndText(e)) ==> EndText(d) == EndText(e)
  }

  function FactText(hash: Hash, e: RealFact): seq<string> {
    [EndId(hash, e.fromEnd), ReasonText(e.reason), e.name]
  }

  function ResolvedText(hash: Hash, e: RealResolved): seq<string> {
    [EndId(hash, e.fromEnd), EndId(hash, e.toEnd), ReasonText(e.reason), e.symbolicName]
  }

  function ExternalText(hash: Hash, e: RealExternal): seq<string> {
    [EndId(hash, e.fromEnd), KindText(e.kind), ReasonText(e.reason), e.name]
  }

  lemma EndTextSaysEnd(d: End, e: End)
    requires EndText(d) == EndText(e)
    ensures d == e
  {
    var (x, y) := (["holbuild-resolved-node-v1", d.package, d.sourceId], ["holbuild-resolved-node-v1", e.package, e.sourceId]);
    FieldsDecodable(x, y);
    assert x[1] == y[1] && x[2] == y[2];
  }

  lemma EndIdSaysEnd(hash: Hash, ends: set<End>, d: End, e: End)
    requires CollisionFree(hash, ends) && d in ends && e in ends && EndId(hash, d) == EndId(hash, e)
    ensures d == e
  {
    EndTextSaysEnd(d, e);
  }

  lemma EndsApart(hash: Hash, ends: set<End>, xs: seq<End>, ys: seq<End>)
    requires CollisionFree(hash, ends) && (forall e <- xs :: e in ends) && (forall e <- ys :: e in ends)
    ensures TellsApart(EndIds(hash), xs, ys)
  {
    forall d <- xs, e <- ys | EndId(hash, d) == EndId(hash, e)
      ensures d == e
    {
      EndIdSaysEnd(hash, ends, d, e);
    }
  }

  lemma FactsApart(hash: Hash, ends: set<End>, xs: seq<RealFact>, ys: seq<RealFact>)
    requires CollisionFree(hash, ends) && (forall e <- xs :: e.fromEnd in ends) && (forall e <- ys :: e.fromEnd in ends)
    ensures TellsApart(FactTexts(hash), xs, ys)
  {
    ReasonsDiffer();
    hide EndId, CollisionFree;
    forall e <- xs, f <- ys | FactText(hash, e) == FactText(hash, f)
      ensures e == f
    {
      var r, s := FactText(hash, e), FactText(hash, f);
      assert r[0] == s[0] && r[1] == s[1] && r[2] == s[2];
      EndIdSaysEnd(hash, ends, e.fromEnd, f.fromEnd);
    }
  }

  lemma ResolvedsApart(hash: Hash, ends: set<End>, xs: seq<RealResolved>, ys: seq<RealResolved>)
    requires CollisionFree(hash, ends)
    requires (forall e <- xs :: e.fromEnd in ends && e.toEnd in ends) && (forall e <- ys :: e.fromEnd in ends && e.toEnd in ends)
    ensures TellsApart(ResolvedTexts(hash), xs, ys)
  {
    ReasonsDiffer();
    hide EndId, CollisionFree;
    forall e <- xs, f <- ys | ResolvedText(hash, e) == ResolvedText(hash, f)
      ensures e == f
    {
      var r, s := ResolvedText(hash, e), ResolvedText(hash, f);
      assert r[0] == s[0] && r[1] == s[1] && r[2] == s[2] && r[3] == s[3];
      EndIdSaysEnd(hash, ends, e.fromEnd, f.fromEnd);
      EndIdSaysEnd(hash, ends, e.toEnd, f.toEnd);
    }
  }

  lemma ExternalsApart(hash: Hash, ends: set<End>, xs: seq<RealExternal>, ys: seq<RealExternal>)
    requires CollisionFree(hash, ends) && (forall e <- xs :: e.fromEnd in ends) && (forall e <- ys :: e.fromEnd in ends)
    ensures TellsApart(ExternalTexts(hash), xs, ys)
  {
    ReasonsDiffer();
    hide EndId, CollisionFree;
    forall e <- xs, f <- ys | ExternalText(hash, e) == ExternalText(hash, f)
      ensures e == f
    {
      var r, s := ExternalText(hash, e), ExternalText(hash, f);
      assert r[0] == s[0] && r[1] == s[1] && r[2] == s[2] && r[3] == s[3];
      EndIdSaysEnd(hash, ends, e.fromEnd, f.fromEnd);
    }
  }

  function EndIds(hash: Hash): End -> string { e => EndId(hash, e) }
  function FactTexts(hash: Hash): RealFact -> seq<string> { e => FactText(hash, e) }
  function ResolvedTexts(hash: Hash): RealResolved -> seq<string> { e => ResolvedText(hash, e) }
  function ExternalTexts(hash: Hash): RealExternal -> seq<string> { e => ExternalText(hash, e) }

  lemma EndAtNode(hash: Hash, nodes: seq<Node>, key: Key)
    requires key in Keys(nodes)
    ensures CanonicalNodeFor(hash, nodes, key) == EndId(hash, EndAt(nodes, key))
  {}

  lemma FactsMeant(hash: Hash, nodes: seq<Node>, es: seq<Fact>)
    requires forall e <- es :: e.fromNode in Keys(nodes)
    ensures Map(e => FactRow(hash, nodes, e), es) == Map(FactTexts(hash), Map(e => FactMeant(nodes, e), es))
  {
    hide CanonicalNodeFor, EndAt, EndId;
    forall e <- es { EndAtNode(hash, nodes, e.fromNode); }
  }

  lemma ResolvedsMeant(hash: Hash, nodes: seq<Node>, es: seq<ResolvedEdge>)
    requires forall e <- es :: e.fromNode in Keys(nodes) && e.toNode in Keys(nodes)
    ensures Map(e => ResolvedRow(hash, nodes, e), es) == Map(ResolvedTexts(hash), Map(e => ResolvedMeant(nodes, e), es))
  {
    hide CanonicalNodeFor, EndAt, EndId;
    forall e <- es { EndAtNode(hash, nodes, e.fromNode); }
    forall e <- es { EndAtNode(hash, nodes, e.toNode); }
  }

  lemma ExternalsMeant(hash: Hash, nodes: seq<Node>, es: seq<ExternalEdge>)
    requires forall e <- es :: e.fromNode in Keys(nodes)
    ensures Map(e => ExternalRow(hash, nodes, e), es) == Map(ExternalTexts(hash), Map(e => ExternalMeant(nodes, e), es))
  {
    hide CanonicalNodeFor, EndAt, EndId;
    forall e <- es { EndAtNode(hash, nodes, e.fromNode); }
  }

  /** Rows are the texts of what the edges mean. */
  lemma RowsAreMeant(hash: Hash, nodes: seq<Node>, graph: Graph)
    requires Within(nodes, graph)
    ensures var (rows, m) := (GraphRows(hash, nodes, graph), MeaningOf(nodes, graph));
            && rows.nodes == Map(EndIds(hash), m.nodes)
            && rows.symbolic == Map(FactTexts(hash), m.symbolic)
            && rows.resolved == Map(ResolvedTexts(hash), m.resolved)
            && rows.external == Map(ExternalTexts(hash), m.external)
            && rows.unresolved == Map(FactTexts(hash), m.unresolved)
            && rows.reverse == Map(ResolvedTexts(hash), m.reverse)
  {
    EdgesWithin(nodes, graph);
    hide VectorValues, FactRow, ResolvedRow, ExternalRow, FactMeant, ResolvedMeant, ExternalMeant, Keys, Within;
    FactsMeant(hash, nodes, VectorValues(graph.symbolic));
    FactsMeant(hash, nodes, VectorValues(graph.unresolved));
    ResolvedsMeant(hash, nodes, VectorValues(graph.resolved));
    ResolvedsMeant(hash, nodes, VectorValues(graph.reverse));
    ExternalsMeant(hash, nodes, VectorValues(graph.external));
    NodesMeant(hash, nodes);
    hide Map, FactTexts, ResolvedTexts, ExternalTexts, EndIds;
  }

  lemma NodesMeant(hash: Hash, nodes: seq<Node>)
    ensures Map(n => BoundNodeId(hash, n), nodes) == Map(EndIds(hash), Map(EndOf, nodes))
  {}

  lemma EdgesWithin(nodes: seq<Node>, graph: Graph)
    requires Within(nodes, graph)
    ensures forall e <- VectorValues(graph.symbolic) :: e.fromNode in Keys(nodes)
    ensures forall e <- VectorValues(graph.unresolved) :: e.fromNode in Keys(nodes)
    ensures forall e <- VectorValues(graph.resolved) :: e.fromNode in Keys(nodes) && e.toNode in Keys(nodes)
    ensures forall e <- VectorValues(graph.reverse) :: e.fromNode in Keys(nodes) && e.toNode in Keys(nodes)
    ensures forall e <- VectorValues(graph.external) :: e.fromNode in Keys(nodes)
  {
    hide VectorValues, Keys;
    var (a, b) := (VectorValues(graph.symbolic), VectorValues(graph.unresolved));
    assert forall e <- a :: e in a + b;
    assert forall e <- b :: e in a + b;
    var (c, d) := (VectorValues(graph.resolved), VectorValues(graph.reverse));
    assert forall e <- c :: e in c + d;
    assert forall e <- d :: e in c + d;
  }

  /** The ends of what is meant are of these. */
  ghost predicate MeantWithin(m: Meaning, ends: set<End>) {
    && (forall e <- m.nodes :: e in ends)
    && (forall e <- m.symbolic :: e.fromEnd in ends)
    && (forall e <- m.resolved :: e.fromEnd in ends && e.toEnd in ends)
    && (forall e <- m.external :: e.fromEnd in ends)
    && (forall e <- m.unresolved :: e.fromEnd in ends)
    && (forall e <- m.reverse :: e.fromEnd in ends && e.toEnd in ends)
  }

  lemma EndAtIsEnd(nodes: seq<Node>, key: Key)
    requires key in Keys(nodes)
    ensures EndAt(nodes, key) in Ends(nodes)
  {
    match NodeId(nodes, key)
    case Some(i) => assert Map(EndOf, nodes)[i] == EndOf(nodes[i]);
  }

  lemma FactsWithin(nodes: seq<Node>, es: seq<Fact>)
    requires forall e <- es :: e.fromNode in Keys(nodes)
    ensures forall r <- Map(e => FactMeant(nodes, e), es) :: r.fromEnd in Ends(nodes)
  {
    hide EndAt, Ends, Keys;
    forall e <- es { EndAtIsEnd(nodes, e.fromNode); }
  }

  lemma ResolvedsWithin(nodes: seq<Node>, es: seq<ResolvedEdge>)
    requires forall e <- es :: e.fromNode in Keys(nodes) && e.toNode in Keys(nodes)
    ensures forall r <- Map(e => ResolvedMeant(nodes, e), es) :: r.fromEnd in Ends(nodes) && r.toEnd in Ends(nodes)
  {
    hide EndAt, Ends, Keys;
    forall e <- es { EndAtIsEnd(nodes, e.fromNode); }
    forall e <- es { EndAtIsEnd(nodes, e.toNode); }
  }

  lemma ExternalsWithin(nodes: seq<Node>, es: seq<ExternalEdge>)
    requires forall e <- es :: e.fromNode in Keys(nodes)
    ensures forall r <- Map(e => ExternalMeant(nodes, e), es) :: r.fromEnd in Ends(nodes)
  {
    hide EndAt, Ends, Keys;
    forall e <- es { EndAtIsEnd(nodes, e.fromNode); }
  }

  lemma MeaningWithin(nodes: seq<Node>, graph: Graph)
    requires Within(nodes, graph)
    ensures MeantWithin(MeaningOf(nodes, graph), Ends(nodes))
  {
    EdgesWithin(nodes, graph);
    assert forall e <- Map(EndOf, nodes) :: e in Ends(nodes);
    hide VectorValues, FactMeant, ResolvedMeant, ExternalMeant, Keys, Within, Ends, Map;
    FactsWithin(nodes, VectorValues(graph.symbolic));
    FactsWithin(nodes, VectorValues(graph.unresolved));
    ResolvedsWithin(nodes, VectorValues(graph.resolved));
    ResolvedsWithin(nodes, VectorValues(graph.reverse));
    ExternalsWithin(nodes, VectorValues(graph.external));
  }

  lemma TextsApart(hash: Hash, ends: set<End>, a: Meaning, b: Meaning)
    requires CollisionFree(hash, ends) && MeantWithin(a, ends) && MeantWithin(b, ends)
    ensures TellsApart(EndIds(hash), a.nodes, b.nodes)
    ensures TellsApart(FactTexts(hash), a.symbolic, b.symbolic) && TellsApart(FactTexts(hash), a.unresolved, b.unresolved)
    ensures TellsApart(ResolvedTexts(hash), a.resolved, b.resolved) && TellsApart(ResolvedTexts(hash), a.reverse, b.reverse)
    ensures TellsApart(ExternalTexts(hash), a.external, b.external)
  {
    hide CollisionFree, TellsApart;
    EndsApart(hash, ends, a.nodes, b.nodes);
    FactsApart(hash, ends, a.symbolic, b.symbolic);
    ResolvedsApart(hash, ends, a.resolved, b.resolved);
    ExternalsApart(hash, ends, a.external, b.external);
    FactsApart(hash, ends, a.unresolved, b.unresolved);
    ResolvedsApart(hash, ends, a.reverse, b.reverse);
  }

  lemma MoreEnds(m: Meaning, ends: set<End>, more: set<End>)
    requires MeantWithin(m, ends) && ends <= more
    ensures MeantWithin(m, more)
  {}

  /** Where no two of their sources' bound ids collide, two graphs have the same text
      exactly when they have the same sources and the same edges between the same sources,
      of each kind and as often. */
  lemma GraphTextSaysGraph(hash: Hash, nodes: seq<Node>, graph: Graph, nodes': seq<Node>, graph': Graph)
    requires CollisionFree(hash, Ends(nodes) + Ends(nodes')) && Within(nodes, graph) && Within(nodes', graph')
    ensures SelectedGraphText(hash, nodes, graph) == SelectedGraphText(hash, nodes', graph')
            <==> SameMeaning(MeaningOf(nodes, graph), MeaningOf(nodes', graph'))
  {
    GraphTextIdentity(hash, nodes, graph, nodes', graph');
    RowsAreMeant(hash, nodes, graph);
    RowsAreMeant(hash, nodes', graph');
    MeaningWithin(nodes, graph);
    MeaningWithin(nodes', graph');
    var (a, b, ends) := (MeaningOf(nodes, graph), MeaningOf(nodes', graph'), Ends(nodes) + Ends(nodes'));
    hide TellsApart, CollisionFree, MeaningOf, MeantWithin, GraphRows, SelectedGraphText, Within, EndIds, FactTexts, ResolvedTexts, ExternalTexts, Map, Ends;
    MoreEnds(a, Ends(nodes), ends);
    MoreEnds(b, Ends(nodes'), ends);
    TextsApart(hash, ends, a, b);
    SameMultisets(EndIds(hash), a.nodes, b.nodes);
    SameMultisets(FactTexts(hash), a.symbolic, b.symbolic);
    SameMultisets(ResolvedTexts(hash), a.resolved, b.resolved);
    SameMultisets(ExternalTexts(hash), a.external, b.external);
    SameMultisets(FactTexts(hash), a.unresolved, b.unresolved);
    SameMultisets(ResolvedTexts(hash), a.reverse, b.reverse);
  }

  /** The same nodes in another order give every key the same bound id. */
  lemma ReorderingKeepsIds(hash: Hash, nodes: seq<Node>, nodes': seq<Node>, key: Key)
    requires AllDistinct(Keys(nodes)) && multiset(nodes) == multiset(nodes')
    ensures key in Keys(nodes) <==> key in Keys(nodes')
    ensures CanonicalNodeFor(hash, nodes, key) == CanonicalNodeFor(hash, nodes', key)
  {
    KeyKept(nodes, nodes', key);
    KeyKept(nodes', nodes, key);
    hide NodeId, AllDistinct, Keys, BoundNodeId;
    SameBound(hash, nodes, nodes', key);
  }

  lemma SameBound(hash: Hash, nodes: seq<Node>, nodes': seq<Node>, key: Key)
    requires AllDistinct(Keys(nodes)) && multiset(nodes) == multiset(nodes')
    requires key in Keys(nodes) <==> key in Keys(nodes')
    ensures CanonicalNodeFor(hash, nodes, key) == CanonicalNodeFor(hash, nodes', key)
  {
    hide NodeId, AllDistinct;
    match (NodeId(nodes, key), NodeId(nodes', key))
    case (None, None) =>
    case (Some(i), Some(j)) => OneNodeByKey(nodes, nodes', i, j);
    case _ =>
  }

  lemma OneNodeByKey(nodes: seq<Node>, nodes': seq<Node>, i: nat, j: nat)
    requires AllDistinct(Keys(nodes)) && multiset(nodes) == multiset(nodes')
    requires i < |nodes| && j < |nodes'| && nodes[i].key == nodes'[j].key
    ensures nodes[i] == nodes'[j]
  {
    SameElements(nodes, nodes', nodes'[j]);
    var k :| 0 <= k < |nodes| && nodes[k] == nodes'[j];
    assert Keys(nodes)[k] == Keys(nodes)[i];
  }

  lemma KeyKept(nodes: seq<Node>, nodes': seq<Node>, key: Key)
    requires multiset(nodes) == multiset(nodes')
    ensures key in Keys(nodes) ==> key in Keys(nodes')
  {
    if key !in Keys(nodes) { return; }
    var i :| 0 <= i < |nodes| && Keys(nodes)[i] == key;
    SameElements(nodes, nodes', nodes[i]);
    var j :| 0 <= j < |nodes'| && nodes'[j] == nodes[i];
    assert Keys(nodes')[j] == key;
  }

  lemma ReorderingKeepsSection<E>(f: E -> seq<string>, g: E -> seq<string>, xs: seq<E>, ys: seq<E>)
    requires multiset(xs) == multiset(ys) && forall e :: f(e) == g(e)
    ensures multiset(Map(f, xs)) == multiset(Map(g, ys))
  {
    MapOfPermutation(f, xs, ys);
    assert Map(f, ys) == Map(g, ys);
  }

  ghost predicate SameEdges(graph: Graph, graph': Graph) {
    && multiset(VectorValues(graph.symbolic)) == multiset(VectorValues(graph'.symbolic))
    && multiset(VectorValues(graph.resolved)) == multiset(VectorValues(graph'.resolved))
    && multiset(VectorValues(graph.external)) == multiset(VectorValues(graph'.external))
    && multiset(VectorValues(graph.unresolved)) == multiset(VectorValues(graph'.unresolved))
    && multiset(VectorValues(graph.reverse)) == multiset(VectorValues(graph'.reverse))
  }

  lemma ReorderingKeepsWithin(nodes: seq<Node>, graph: Graph, nodes': seq<Node>, graph': Graph)
    requires Within(nodes, graph) && SameEdges(graph, graph')
    requires forall key :: key in Keys(nodes) <==> key in Keys(nodes')
    ensures Within(nodes', graph')
  {
    hide VectorValues;
    forall e { SameElements(VectorValues(graph.symbolic), VectorValues(graph'.symbolic), e); }
    forall e { SameElements(VectorValues(graph.unresolved), VectorValues(graph'.unresolved), e); }
    forall e { SameElements(VectorValues(graph.resolved), VectorValues(graph'.resolved), e); }
    forall e { SameElements(VectorValues(graph.reverse), VectorValues(graph'.reverse), e); }
    forall e { SameElements(VectorValues(graph.external), VectorValues(graph'.external), e); }
    assert forall e | e in VectorValues(graph'.symbolic) + VectorValues(graph'.unresolved) ::
        e in VectorValues(graph.symbolic) + VectorValues(graph.unresolved);
    assert forall e | e in VectorValues(graph'.resolved) + VectorValues(graph'.reverse) ::
        e in VectorValues(graph.resolved) + VectorValues(graph.reverse);
  }

  /** So the same nodes and edges make the same text, in whatever order they come. */
  lemma ReorderingKeepsText(hash: Hash, nodes: seq<Node>, graph: Graph, nodes': seq<Node>, graph': Graph)
    requires AllDistinct(Keys(nodes)) && multiset(nodes) == multiset(nodes')
    requires Within(nodes, graph) && SameEdges(graph, graph')
    ensures Within(nodes', graph')
    ensures SelectedGraphText(hash, nodes, graph) == SelectedGraphText(hash, nodes', graph')
  {
    forall key { ReorderingKeepsIds(hash, nodes, nodes', key); }
    ReorderingKeepsWithin(nodes, graph, nodes', graph');
    GraphTextIdentity(hash, nodes, graph, nodes', graph');
    hide CanonicalNodeFor, Within, VectorValues, SelectedGraphText, Map;
    var fact, fact' := e => FactRow(hash, nodes, e), e => FactRow(hash, nodes', e);
    var resolved, resolved' := e => ResolvedRow(hash, nodes, e), e => ResolvedRow(hash, nodes', e);
    var external, external' := e => ExternalRow(hash, nodes, e), e => ExternalRow(hash, nodes', e);
    MapOfPermutation(n => BoundNodeId(hash, n), nodes, nodes');
    ReorderingKeepsSection(fact, fact', VectorValues(graph.symbolic), VectorValues(graph'.symbolic));
    ReorderingKeepsSection(fact, fact', VectorValues(graph.unresolved), VectorValues(graph'.unresolved));
    ReorderingKeepsSection(resolved, resolved', VectorValues(graph.resolved), VectorValues(graph'.resolved));
    ReorderingKeepsSection(resolved, resolved', VectorValues(graph.reverse), VectorValues(graph'.reverse));
    ReorderingKeepsSection(external, external', VectorValues(graph.external), VectorValues(graph'.external));
  }

  // ------------------------------------------------------------ the plan's text

  function SelectedPlanText(hash: Hash, graphId: string, roots: seq<Node>, selected: seq<Node>): string {
    var ids := (nodes: seq<Node>) => Map(n => BoundNodeId(hash, n), nodes);
    Fields(["holbuild-selected-plan-v1", graphId] + (CanonicalList("roots", ids(roots)) + CanonicalList("order", ids(selected))))
  }

  /** A plan's text gives back its graph's identity, its roots and its order. */
  lemma PlanTextIdentity(hash: Hash, graphId: string, roots: seq<Node>, selected: seq<Node>, graphId': string, roots': seq<Node>, selected': seq<Node>)
    ensures SelectedPlanText(hash, graphId, roots, selected) == SelectedPlanText(hash, graphId', roots', selected')
            <==> graphId == graphId' && Map(n => BoundNodeId(hash, n), roots) == Map(n => BoundNodeId(hash, n), roots')
                 && Map(n => BoundNodeId(hash, n), selected) == Map(n => BoundNodeId(hash, n), selected')
  {
    var f := n => BoundNodeId(hash, n);
    var order, order' := CanonicalList("order", Map(f, selected)), CanonicalList("order", Map(f, selected'));
    var a, b := CanonicalList("roots", Map(f, roots)) + order, CanonicalList("roots", Map(f, roots')) + order';
    if SelectedPlanText(hash, graphId, roots, selected) == SelectedPlanText(hash, graphId', roots', selected') {
      var x, y := ["holbuild-selected-plan-v1", graphId] + a, ["holbuild-selected-plan-v1", graphId'] + b;
      FieldsDecodable(x, y);
      assert x[1] == y[1] && x[2..] == a && y[2..] == b;
      ListPrefix("roots", Map(f, roots), Map(f, roots'), order, order');
      ListPrefix("order", Map(f, selected), Map(f, selected'), [], []);
    }
  }

  /** Where no two of their sources' bound ids collide, of the sources themselves. */
  lemma PlanTextSaysPlan(hash: Hash, graphId: string, roots: seq<Node>, selected: seq<Node>, graphId': string, roots': seq<Node>, selected': seq<Node>)
    requires CollisionFree(hash, Ends(roots + selected + roots' + selected'))
    ensures SelectedPlanText(hash, graphId, roots, selected) == SelectedPlanText(hash, graphId', roots', selected')
            <==> graphId == graphId' && Map(EndOf, roots) == Map(EndOf, roots') && Map(EndOf, selected) == Map(EndOf, selected')
  {
    PlanTextIdentity(hash, graphId, roots, selected, graphId', roots', selected');
    NodesMeant(hash, roots);
    NodesMeant(hash, selected);
    NodesMeant(hash, roots');
    NodesMeant(hash, selected');
    var all := roots + selected + roots' + selected';
    EndsAmong(roots, all);
    EndsAmong(selected, all);
    EndsAmong(roots', all);
    EndsAmong(selected', all);
    hide TellsApart, CollisionFree, SelectedPlanText, Map, EndIds, Ends;
    EndsApart(hash, Ends(all), Map(EndOf, roots), Map(EndOf, roots'));
    EndsApart(hash, Ends(all), Map(EndOf, selected), Map(EndOf, selected'));
    SameLists(EndIds(hash), Map(EndOf, roots), Map(EndOf, roots'));
    SameLists(EndIds(hash), Map(EndOf, selected), Map(EndOf, selected'));
  }

  lemma EndsAmong(nodes: seq<Node>, all: seq<Node>)
    requires forall n <- nodes :: n in all
    ensures forall e <- Map(EndOf, nodes) :: e in Ends(all)
  {
    forall e <- Map(EndOf, nodes)
      ensures e in Ends(all)
    {
      var i :| 0 <= i < |nodes| && Map(EndOf, nodes)[i] == e;
      assert nodes[i] in all;
      var j :| 0 <= j < |all| && all[j] == nodes[i];
      assert Map(EndOf, all)[j] == e;
    }
  }

  // ------------------------------------------------------------ reverse edges

  /** The index `reverse_dependency_pairs` folds the edges into, from the last. */
  function IncomingIndex(edges: seq<ResolvedEdge>): map<Key, seq<ResolvedEdge>> {
    if edges == [] then map[]
    else
      var index := IncomingIndex(edges[1..]);
      index[edges[0].toNode := [edges[0]] + (if edges[0].toNode in index then index[edges[0].toNode] else [])]
  }

  function Incoming(edges: seq<ResolvedEdge>, key: Key): seq<ResolvedEdge> {
    if key in IncomingIndex(edges) then IncomingIndex(edges)[key] else []
  }

  function IncomingPairs(keys: seq<Key>, edges: seq<ResolvedEdge>): (pairs: Index<seq<ResolvedEdge>>)
    ensures |pairs| == |keys| && forall i | 0 <= i < |keys| :: pairs[i] == (keys[i], Incoming(edges, keys[i]))
  {
    if keys == [] then [] else [(keys[0], Incoming(edges, keys[0]))] + IncomingPairs(keys[1..], edges)
  }

  function ReverseDependencyPairs(keys: seq<Key>, edges: seq<ResolvedEdge>): Index<seq<ResolvedEdge>> {
    FromPairs(IncomingPairs(keys, edges))
  }

  /** The edges that lead to `key`, in their order. */
  function LeadingTo(edges: seq<ResolvedEdge>, key: Key): seq<ResolvedEdge> {
    if edges == [] then []
    else (if edges[0].toNode == key then [edges[0]] else []) + LeadingTo(edges[1..], key)
  }

  lemma {:induction false} IncomingLeads(edges: seq<ResolvedEdge>, key: Key)
    ensures Incoming(edges, key) == LeadingTo(edges, key)
  {
    if edges != [] { IncomingLeads(edges[1..], key); }
  }

  /** A node's reverse edges are the edges that lead to it, in their order. */
  lemma ReverseIsIncoming(keys: seq<Key>, edges: seq<ResolvedEdge>, key: Key)
    requires AllDistinct(keys) && key in keys
    ensures Find(ReverseDependencyPairs(keys, edges), key) == Some(LeadingTo(edges, key))
  {
    var pairs := IncomingPairs(keys, edges);
    var i :| 0 <= i < |keys| && keys[i] == key;
    IncomingLeads(edges, key);
    assert pairs[i] == (key, LeadingTo(edges, key));
    IndexIsMap(pairs, key, LeadingTo(edges, key));
  }

  lemma TakeOutLater<A>(xs: seq<A>, i: nat)
    requires 0 < i < |xs|
    ensures Without(xs, i) == [xs[0]] + Without(xs[1..], i - 1)
  {}

  lemma {:induction false} ValuesTakeOut<T>(index: Index<seq<T>>, i: nat)
    requires i < |index|
    ensures multiset(VectorValues(index)) == multiset(VectorValues(Without(index, i))) + multiset(index[i].1)
  {
    if i == 0 {
      assert Without(index, 0) == index[1..];
    } else {
      ValuesTakeOut(index[1..], i - 1);
      TakeOutLater(index, i);
    }
  }

  /** Sorting an index keeps what it holds. */
  lemma {:induction false} ValuesOfPermutation<T>(a: Index<seq<T>>, b: Index<seq<T>>)
    requires multiset(a) == multiset(b)
    ensures multiset(VectorValues(a)) == multiset(VectorValues(b))
    decreases |a|
  {
    if a == [] {
      Empty(a, b);
    } else {
      assert a[0] in multiset(b);
      var j :| 0 <= j < |b| && b[j] == a[0];
      TakeOut(a, 0);
      TakeOut(b, j);
      ValuesOfPermutation(Without(a, 0), Without(b, j));
      ValuesTakeOut(a, 0);
      ValuesTakeOut(b, j);
    }
  }

  lemma {:induction false} NoEdgesNoValues(keys: seq<Key>)
    ensures VectorValues(IncomingPairs(keys, [])) == []
  {
    if keys != [] { NoEdgesNoValues(keys[1..]); }
  }

  /** An edge more shows at its target's place, once. */
  lemma {:induction false} OneEdgeMore(keys: seq<Key>, edges: seq<ResolvedEdge>)
    requires AllDistinct(keys) && edges != []
    ensures multiset(VectorValues(IncomingPairs(keys, edges)))
            == multiset(VectorValues(IncomingPairs(keys, edges[1..]))) + (if edges[0].toNode in keys then multiset{edges[0]} else multiset{})
  {
    if keys != [] {
      OneEdgeMore(keys[1..], edges);
    }
  }

  lemma {:induction false} PairsConserve(keys: seq<Key>, edges: seq<ResolvedEdge>)
    requires AllDistinct(keys) && forall e <- edges :: e.toNode in keys
    ensures multiset(VectorValues(IncomingPairs(keys, edges))) == multiset(edges)
  {
    if edges == [] {
      NoEdgesNoValues(keys);
    } else {
      OneEdgeMore(keys, edges);
      hide IncomingPairs, VectorValues;
      PairsConserve(keys, edges[1..]);
      assert edges == [edges[0]] + edges[1..];
    }
  }

  /** Every edge between selected nodes shows among the reverse edges exactly as often
      as among the resolved ones. */
  lemma ReverseConserves(keys: seq<Key>, edges: seq<ResolvedEdge>)
    requires AllDistinct(keys) && forall e <- edges :: e.toNode in keys
    ensures multiset(VectorValues(ReverseDependencyPairs(keys, edges))) == multiset(edges)
  {
    ValuesOfPermutation(ReverseDependencyPairs(keys, edges), IncomingPairs(keys, edges));
    PairsConserve(keys, edges);
  }
}
