/** Action keys: each node's action lines, hashed with its dependencies' keys among
    them, folded over the selected order, and keys kept from earlier computations. */
module PlanKeys {
  import opened Wrappers
  import opened Collections
  import opened Text
  import opened KeyIndex
  import opened PlanSort

  type Hash = string -> string

  /** A file an extra input names, and the digest of its contents. */
  datatype InputFile = InputFile(path: string, hash: string)

  /** A declared extra input, by the manifest or by the source, and the files it names. */
  datatype Input = Input(manifest: bool, decl: string, files: seq<InputFile>)

  /** What a node's action says of itself; `sourceName` and the inputs' files as computed. */
  datatype Facts = Facts(
    kind: string,
    package: string,
    logical: string,
    source: string,
    sourceHash: string,
    sourceName: Option<string>,
    cache: bool,
    alwaysReexecute: bool,
    declaredDeps: seq<string>,
    declaredLoads: seq<string>,
    inputs: seq<Input>,
    extraOutputs: seq<string>,
    externalTheories: seq<string>,
    externalLibs: seq<string>)

  /** A plan with what its keys are computed for. */
  datatype Plan = Plan(
    graph: Graph,
    selected: seq<Key>,
    facts: map<Key, Facts>,
    toolchainKey: string,
    configLines: map<Key, seq<string>>)

  type Keys = map<Key, string>

  // ------------------------------------------------------------ action text

  function Prefixed(prefix: string, xs: seq<string>): (r: seq<string>)
    ensures |r| == |xs| && forall i | 0 <= i < |xs| :: r[i] == prefix + xs[i]
  {
    if xs == [] then [] else [prefix + xs[0]] + Prefixed(prefix, xs[1..])
  }

  function FileText(f: InputFile): string {
    f.path + "@" + f.hash
  }

  /** The files' texts, sorted. */
  function FileTexts(files: seq<InputFile>): seq<string> {
    SortStrings(Map(FileText, files))
  }

  function InputTag(input: Input): string {
    if input.manifest then "extra_dep" else "source_extra_dep"
  }

  function DeclLine(input: Input): string {
    InputTag(input) + "_decl=" + input.decl
  }

  function FileLines(input: Input): seq<string> {
    Prefixed(InputTag(input) + "=", FileTexts(input.files))
  }

  /** `extra_input_lines` */
  function InputLines(inputs: seq<Input>): seq<string> {
    if inputs == [] then [] else [DeclLine(inputs[0])] + FileLines(inputs[0]) + InputLines(inputs[1..])
  }

  function BoolText(b: bool): string {
    if b then "true" else "false"
  }

  function Opening(f: Facts, toolchainKey: string): seq<string> {
    ["holbuild-action-v1",
     "toolchain=" + toolchainKey,
     "kind=" + f.kind,
     "package=" + f.package,
     "logical=" + f.logical,
     "source=" + f.source,
     "source-sha256=" + f.sourceHash]
  }

  function Policy(f: Facts): seq<string> {
    (match f.sourceName case Some(name) => ["source-name=" + name] case None => []) +
    ["cache=" + BoolText(f.cache),
     "always_reexecute=" + BoolText(f.alwaysReexecute)]
  }

  function Declared(f: Facts): seq<string> {
    Prefixed("declared_dep=", f.declaredDeps) +
    Prefixed("declared_load=", f.declaredLoads) +
    InputLines(f.inputs) +
    Prefixed("source_extra_output=", f.extraOutputs)
  }

  /** The action lines before the dependencies. */
  function Head(f: Facts, toolchainKey: string, configLines: seq<string>): seq<string> {
    Opening(f, toolchainKey) + Policy(f) + configLines + Declared(f)
  }

  function ExternalTexts(f: Facts): seq<string> {
    Prefixed("HOL:", f.externalTheories) + Prefixed("HOLLIB:", f.externalLibs)
  }

  /** `dep_text` of each dependency. */
  function DepTexts(facts: map<Key, Facts>, keys: Keys, deps: seq<Key>): (r: seq<string>)
    requires forall d <- deps :: d in facts && d in keys
    ensures |r| == |deps|
    ensures forall i | 0 <= i < |deps| :: r[i] == facts[deps[i]].package + ":" + facts[deps[i]].logical + "@" + keys[deps[i]]
  {
    if deps == [] then []
    else [facts[deps[0]].package + ":" + facts[deps[0]].logical + "@" + keys[deps[0]]] + DepTexts(facts, keys, deps[1..])
  }

  function DirectDeps(plan: Plan, node: Key): (deps: seq<Key>)
    ensures forall d :: d in deps <==> d in Edges(plan.graph, node)
  {
    Unique(Edges(plan.graph, node), {})
  }

  predicate Ready(plan: Plan, keys: Keys, node: Key) {
    node in plan.facts && node in plan.configLines && forall d <- DirectDeps(plan, node) :: d in plan.facts && d in keys
  }

  function ActionLines(plan: Plan, keys: Keys, node: Key): seq<string>
    requires Ready(plan, keys, node)
  {
    var f := plan.facts[node];
    Head(f, plan.toolchainKey, plan.configLines[node]) +
    Prefixed("dep=", DepTexts(plan.facts, keys, DirectDeps(plan, node)) + ExternalTexts(f))
  }

  // ------------------------------------------------------------ the fold

  function Lookup(keys: Keys, deps: seq<Key>): (r: Option<seq<string>>)
    ensures r.Some? <==> forall d <- deps :: d in keys
    ensures match r
            case Some(found) => |found| == |deps| && forall i | 0 <= i < |deps| :: found[i] == keys[deps[i]]
            case None => true
  {
    if deps == [] then Some([])
    else if deps[0] !in keys then None
    else
      assert forall d <- deps :: d == deps[0] || d in deps[1..];
      match Lookup(keys, deps[1..])
      case None => None
      case Some(rest) => Some([keys[deps[0]]] + rest)
  }

  /** The keys of the first `i` nodes computed afresh, in the selected order; none if a
      dependency's key is missing when it is needed. */
  function FreshKeys(hash: Hash, plan: Plan, i: nat): Option<Keys>
    requires i <= |plan.selected|
  {
    if i == 0 then Some(map[])
    else
      match FreshKeys(hash, plan, i - 1)
      case None => None
      case Some(keys) =>
        var node := plan.selected[i - 1];
        if Ready(plan, keys, node) then Some(WithKey(hash, plan, keys, node)) else None
  }

  /** `add_input_key_with`, for a key computed afresh. */
  function WithKey(hash: Hash, plan: Plan, keys: Keys, node: Key): Keys
    requires Ready(plan, keys, node)
  {
    keys[node := hash(JoinLines(ActionLines(plan, keys, node)))]
  }

  // ------------------------------------------------------------ what a plan may hold

  predicate IsDepLine(s: string) {
    "dep=" <= s
  }

  predicate IsLoadLine(s: string) {
    "declared_load=" <= s
  }

  ghost predicate CleanInput(input: Input) {
    OneLine(input.decl) && forall f <- input.files :: OneLine(f.path) && IsSha(f.hash)
  }

  ghost predicate CleanInputs(inputs: seq<Input>) {
    forall i <- inputs :: CleanInput(i)
  }

  /** Fields are single lines. */
  ghost predicate CleanFacts(f: Facts) {
    && OneLine(f.kind) && OneLine(f.package) && OneLine(f.logical) && OneLine(f.source) && OneLine(f.sourceHash)
    && (match f.sourceName case Some(name) => OneLine(name) case None => true)
    && AllOneLine(f.declaredDeps) && AllOneLine(f.declaredLoads) && CleanInputs(f.inputs) && AllOneLine(f.extraOutputs)
    && AllOneLine(f.externalTheories) && AllOneLine(f.externalLibs)
  }

  /** The text ends like a dependency's, in `@` and a key. */
  predicate ReadsAsDep(s: string) {
    |s| >= 65 && s[|s| - 65] == '@' && IsSha(s[|s| - 64..])
  }

  ghost predicate CleanConfig(lines: seq<string>) {
    AllOneLine(lines) && forall x <- lines :: !IsDepLine(x) && !IsLoadLine(x)
  }

  ghost predicate WellFormed(plan: Plan) {
    && DepsFirst(plan.graph, plan.selected)
    && OneLine(plan.toolchainKey)
    && forall n <- plan.selected :: n in plan.facts && n in plan.configLines && CleanFacts(plan.facts[n]) && CleanConfig(plan.configLines[n])
  }

  /** The hash makes SHA-256 digests, and has no collision among the texts it is asked for. */
  ghost predicate Digest(hash: Hash, texts: set<string>) {
    (forall s <- texts, t <- texts :: hash(s) == hash(t) ==> s == t) && forall s :: IsSha(hash(s))
  }

  /** The node's key is the hash of its lines with the others. */
  ghost predicate Keyed(hash: Hash, plan: Plan, keys: Keys, n: Key) {
    n in keys && Ready(plan, keys, n) && keys[n] == hash(JoinLines(ActionLines(plan, keys, n)))
  }

  ghost predicate Sound(hash: Hash, plan: Plan, keys: Keys) {
    forall n <- plan.selected :: Keyed(hash, plan, keys, n)
  }

  /** The texts of a plan's nodes are among those the hash is asked for. */
  ghost predicate Covers(texts: set<string>, plan: Plan, keys: Keys) {
    forall n <- plan.selected :: Ready(plan, keys, n) && JoinLines(ActionLines(plan, keys, n)) in texts
  }

  ghost predicate Computed(hash: Hash, texts: set<string>, plan: Plan, keys: Keys) {
    WellFormed(plan) && Sound(hash, plan, keys) && Covers(texts, plan, keys)
  }

  // ------------------------------------------------------------ reading a text back

  /** Two lists, each of lines without a mark and then lines with it, come apart alike. */
  lemma SplitAtMark(mark: string -> bool, a: seq<string>, b: seq<string>, c: seq<string>, d: seq<string>)
    requires a + b == c + d
    requires (forall i | 0 <= i < |a| :: !mark(a[i])) && (forall i | 0 <= i < |c| :: !mark(c[i]))
    requires (forall i | 0 <= i < |b| :: mark(b[i])) && (forall i | 0 <= i < |d| :: mark(d[i]))
    ensures a == c && b == d
  {
    var all := a + b;
    assert forall i | 0 <= i < |all| :: mark(all[i]) <==> |a| <= i;
    assert forall i | 0 <= i < |all| :: mark((c + d)[i]) <==> |c| <= i;
    assert |c| < |all| ==> mark(all[|c|]) && mark((c + d)[|c|]);
    assert |a| < |all| ==> mark(all[|a|]) && mark((c + d)[|a|]);
    assert a == all[..|a|] == c && b == all[|a|..] == d;
  }

  /** A text ending in a key is determined, as is its key. */
  lemma SplitAtKey(p: string, q: string, key: string, key': string)
    requires IsSha(key) && IsSha(key') && p + "@" + key == q + "@" + key'
    ensures p == q && key == key'
  {
    var (s, t) := (p + "@" + key, q + "@" + key');
    assert key == s[|s| - 64..] == t[|t| - 64..] == key';
    assert p == s[..|s| - 65] == t[..|t| - 65] == q;
  }

  lemma ReadsAsItsDep(name: string, key: string)
    requires IsSha(key)
    ensures ReadsAsDep(name + "@" + key)
  {
    var s := name + "@" + key;
    assert s[|s| - 64..] == key && s[|s| - 65] == '@';
  }

  lemma ShaIsOneLine(key: string)
    requires IsSha(key)
    ensures OneLine(key)
  {}

  lemma PrefixedInjective(prefix: string, xs: seq<string>, ys: seq<string>)
    requires Prefixed(prefix, xs) == Prefixed(prefix, ys)
    ensures xs == ys
  {
    forall i | 0 <= i < |xs|
      ensures xs[i] == ys[i]
    {
      assert prefix + xs[i] == prefix + ys[i];
      assert xs[i] == (prefix + xs[i])[|prefix|..];
      assert ys[i] == (prefix + ys[i])[|prefix|..];
    }
    assert |xs| == |Prefixed(prefix, xs)| == |ys|;
  }

  ghost predicate NoDepLines(xs: seq<string>) {
    forall x <- xs :: !IsDepLine(x)
  }

  lemma NoDepLinesPrefixed(prefix: string, xs: seq<string>)
    requires |prefix| >= 4 && prefix[2] != 'p'
    ensures NoDepLines(Prefixed(prefix, xs))
  {
    forall y <- Prefixed(prefix, xs)
      ensures !IsDepLine(y)
    {
      assert y[2] == prefix[2];
    }
  }

  lemma FirstLettersDiffer(f: Facts, toolchainKey: string)
    ensures NoDepLines(Opening(f, toolchainKey))
    ensures NoDepLines(Policy(f))
  {
    forall x <- Opening(f, toolchainKey)
      ensures x[0] != 'd'
    {}
    forall x <- Policy(f)
      ensures x[0] != 'd'
    {
      match f.sourceName
      case Some(name) => assert ("source-name=" + name)[0] == 's';
      case None =>
    }
  }

  lemma NoDepLinesConcat(a: seq<string>, b: seq<string>)
    requires NoDepLines(a) && NoDepLines(b)
    ensures NoDepLines(a + b)
  {}

  lemma PrefixedOneLine(prefix: string, xs: seq<string>)
    requires AllOneLine(xs) && OneLine(prefix)
    ensures AllOneLine(Prefixed(prefix, xs))
  {
    var r := Prefixed(prefix, xs);
    forall i | 0 <= i < |r|
      ensures OneLine(r[i])
    {
      assert OneLine(xs[i]) by { assert xs[i] in xs; }
    }
  }

  lemma OneLineConcat(a: seq<string>, b: seq<string>)
    requires AllOneLine(a) && AllOneLine(b)
    ensures AllOneLine(a + b)
  {}

  lemma FilesOneLine(files: seq<InputFile>)
    requires forall f <- files :: OneLine(f.path) && IsSha(f.hash)
    ensures AllOneLine(FileTexts(files))
  {
    var texts := Map(FileText, files);
    forall t <- texts
      ensures OneLine(t)
    {
      var i :| 0 <= i < |files| && texts[i] == t;
      assert files[i] in files && '\n' !in files[i].hash;
    }
    forall t <- FileTexts(files)
      ensures t in texts
    {
      SameElements(FileTexts(files), texts, t);
    }
  }

  lemma TagIs(input: Input)
    ensures var tag := InputTag(input) + "="; OneLine(tag) && |tag| >= 4 && tag[2] != 'p'
  {}

  lemma DeclIsClean(input: Input)
    requires OneLine(input.decl)
    ensures AllOneLine([DeclLine(input)]) && NoDepLines([DeclLine(input)])
  {
    assert DeclLine(input)[2] == InputTag(input)[2] != 'p';
  }

  lemma InputClean(input: Input)
    requires CleanInput(input)
    ensures AllOneLine([DeclLine(input)] + FileLines(input)) && NoDepLines([DeclLine(input)] + FileLines(input))
  {
    FilesOneLine(input.files);
    TagIs(input);
    DeclIsClean(input);
    hide FileTexts, InputTag, OneLine, AllOneLine, NoDepLines, Prefixed, DeclLine, CleanInput;
    PrefixedOneLine(InputTag(input) + "=", FileTexts(input.files));
    NoDepLinesPrefixed(InputTag(input) + "=", FileTexts(input.files));
    OneLineConcat([DeclLine(input)], FileLines(input));
    NoDepLinesConcat([DeclLine(input)], FileLines(input));
  }

  /** The lines of inputs are theirs by their labels. */
  lemma {:induction false} InputLinesClean(inputs: seq<Input>)
    requires CleanInputs(inputs)
    ensures AllOneLine(InputLines(inputs)) && NoDepLines(InputLines(inputs))
  {
    if inputs != [] {
      var first := inputs[0];
      assert first in inputs && forall i <- inputs[1..] :: i in inputs;
      hide CleanInput, DeclLine, FileLines, NoDepLines, AllOneLine;
      InputClean(first);
      InputLinesClean(inputs[1..]);
      OneLineConcat([DeclLine(first)] + FileLines(first), InputLines(inputs[1..]));
      NoDepLinesConcat([DeclLine(first)] + FileLines(first), InputLines(inputs[1..]));
    } else {
      NothingClean();
    }
  }

  lemma NothingClean()
    ensures AllOneLine([]) && NoDepLines([])
  {}

  /** No line before the dependencies looks like one of theirs. */
  lemma HeadHasNoDeps(f: Facts, toolchainKey: string, configLines: seq<string>)
    requires CleanFacts(f) && CleanConfig(configLines)
    ensures NoDepLines(Head(f, toolchainKey, configLines))
  {
    FirstLettersDiffer(f, toolchainKey);
    NoDepLinesPrefixed("declared_dep=", f.declaredDeps);
    NoDepLinesPrefixed("declared_load=", f.declaredLoads);
    NoDepLinesPrefixed("source_extra_output=", f.extraOutputs);
    InputLinesClean(f.inputs);
    assert NoDepLines(configLines);
    hide Prefixed, InputLines, OneLine, AllOneLine, NoDepLines, Opening, Policy, CleanFacts, CleanConfig;
    var (d, l) := (Prefixed("declared_dep=", f.declaredDeps), Prefixed("declared_load=", f.declaredLoads));
    NoDepLinesConcat(d, l);
    NoDepLinesConcat(d + l, InputLines(f.inputs));
    NoDepLinesConcat(d + l + InputLines(f.inputs), Prefixed("source_extra_output=", f.extraOutputs));
    NoDepLinesConcat(Opening(f, toolchainKey), Policy(f));
    NoDepLinesConcat(Opening(f, toolchainKey) + Policy(f), configLines);
    NoDepLinesConcat(Opening(f, toolchainKey) + Policy(f) + configLines, Declared(f));
  }

  // ------------------------------------------------------------ a key commits to its node

  lemma OpeningOneLine(f: Facts, toolchainKey: string)
    requires CleanFacts(f) && OneLine(toolchainKey)
    ensures AllOneLine(Opening(f, toolchainKey)) && AllOneLine(Policy(f))
  {
    match f.sourceName case Some(name) => case None =>
  }

  lemma HeadOneLine(f: Facts, toolchainKey: string, configLines: seq<string>)
    requires CleanFacts(f) && CleanConfig(configLines) && OneLine(toolchainKey)
    ensures AllOneLine(Head(f, toolchainKey, configLines))
  {
    PrefixedOneLine("declared_dep=", f.declaredDeps);
    PrefixedOneLine("declared_load=", f.declaredLoads);
    PrefixedOneLine("source_extra_output=", f.extraOutputs);
    InputLinesClean(f.inputs);
    OpeningOneLine(f, toolchainKey);
    hide Prefixed, InputLines, OneLine, AllOneLine, Opening, Policy, CleanFacts, CleanInputs, IsDepLine, IsLoadLine;
    var (d, l) := (Prefixed("declared_dep=", f.declaredDeps), Prefixed("declared_load=", f.declaredLoads));
    OneLineConcat(d, l);
    OneLineConcat(d + l, InputLines(f.inputs));
    OneLineConcat(d + l + InputLines(f.inputs), Prefixed("source_extra_output=", f.extraOutputs));
    OneLineConcat(Opening(f, toolchainKey), Policy(f));
    OneLineConcat(Opening(f, toolchainKey) + Policy(f), configLines);
    OneLineConcat(Opening(f, toolchainKey) + Policy(f) + configLines, Declared(f));
  }

  /** The keys of a node's dependencies are words. */
  ghost predicate WordKeys(plan: Plan, keys: Keys, node: Key) {
    forall d <- DirectDeps(plan, node) :: d in keys && IsSha(keys[d])
      && d in plan.facts && OneLine(plan.facts[d].package) && OneLine(plan.facts[d].logical)
  }

  ghost predicate CleanNode(plan: Plan, keys: Keys, node: Key) {
    && Ready(plan, keys, node) && WordKeys(plan, keys, node)
    && OneLine(plan.toolchainKey) && CleanFacts(plan.facts[node]) && CleanConfig(plan.configLines[node])
  }

  lemma ActionOneLine(plan: Plan, keys: Keys, node: Key)
    requires CleanNode(plan, keys, node)
    ensures AllOneLine(ActionLines(plan, keys, node))
  {
    var f := plan.facts[node];
    HeadOneLine(f, plan.toolchainKey, plan.configLines[node]);
    var deps := DepTexts(plan.facts, keys, DirectDeps(plan, node));
    forall d <- DirectDeps(plan, node) { ShaIsOneLine(keys[d]); }
    assert AllOneLine(deps) by { hide IsSha; }
    PrefixedOneLine("HOL:", f.externalTheories);
    PrefixedOneLine("HOLLIB:", f.externalLibs);
    hide Prefixed, OneLine, AllOneLine, Head;
    OneLineConcat(Prefixed("HOL:", f.externalTheories), Prefixed("HOLLIB:", f.externalLibs));
    OneLineConcat(deps, ExternalTexts(f));
    assert OneLine("dep=") by { DepIsOneLine(); }
    PrefixedOneLine("dep=", deps + ExternalTexts(f));
    OneLineConcat(Head(f, plan.toolchainKey, plan.configLines[node]), Prefixed("dep=", deps + ExternalTexts(f)));
  }

  lemma DepIsOneLine()
    ensures OneLine("dep=")
  {}

  ghost predicate AllRead(xs: seq<string>) {
    forall i | 0 <= i < |xs| :: ReadsAsDep(xs[i])
  }

  /** Lines before the dependencies' are told apart from theirs. */
  lemma HeadDetermined(head: seq<string>, xs: seq<string>, head': seq<string>, ys: seq<string>)
    requires head + Prefixed("dep=", xs) == head' + Prefixed("dep=", ys)
    requires NoDepLines(head) && NoDepLines(head')
    ensures head == head' && xs == ys
  {
    NoDepLinesAt(head);
    NoDepLinesAt(head');
    PrefixedAreDeps(xs);
    PrefixedAreDeps(ys);
    hide Prefixed, NoDepLines, IsDepLine;
    SplitAtMark(IsDepLine, head, Prefixed("dep=", xs), head', Prefixed("dep=", ys));
    PrefixedInjective("dep=", xs, ys);
  }

  lemma NoDepLinesAt(xs: seq<string>)
    requires NoDepLines(xs)
    ensures forall i | 0 <= i < |xs| :: !IsDepLine(xs[i])
  {}

  lemma PrefixedAreDeps(xs: seq<string>)
    ensures forall i | 0 <= i < |xs| :: IsDepLine(Prefixed("dep=", xs)[i])
  {}

  lemma DepTextsRead(facts: map<Key, Facts>, keys: Keys, deps: seq<Key>)
    requires forall d <- deps :: d in facts && d in keys && IsSha(keys[d])
    ensures AllRead(DepTexts(facts, keys, deps))
  {
    hide IsSha, ReadsAsDep;
    forall i | 0 <= i < |deps|
      ensures ReadsAsDep(DepTexts(facts, keys, deps)[i])
    {
      assert deps[i] in deps;
      ReadsAsItsDep(facts[deps[i]].package + ":" + facts[deps[i]].logical, keys[deps[i]]);
    }
  }

  lemma {:induction false} DepKeysSame(plan: Plan, keys: Keys, ds: seq<Key>, plan': Plan, keys': Keys, es: seq<Key>)
    requires forall d <- ds :: d in plan.facts && d in keys && IsSha(keys[d])
    requires forall e <- es :: e in plan'.facts && e in keys' && IsSha(keys'[e])
    requires DepTexts(plan.facts, keys, ds) == DepTexts(plan'.facts, keys', es)
    ensures Lookup(keys, ds) == Lookup(keys', es)
  {
    assert |DepTexts(plan.facts, keys, ds)| == |ds| && |DepTexts(plan'.facts, keys', es)| == |es|;
    if ds != [] {
      var (a, c) := (DepTexts(plan.facts, keys, ds), DepTexts(plan'.facts, keys', es));
      assert a[1..] == DepTexts(plan.facts, keys, ds[1..]) && c[1..] == DepTexts(plan'.facts, keys', es[1..]);
      assert a[0] == c[0];
      SplitAtKey(plan.facts[ds[0]].package + ":" + plan.facts[ds[0]].logical, plan'.facts[es[0]].package + ":" + plan'.facts[es[0]].logical,
                 keys[ds[0]], keys'[es[0]]);
      DepKeysSame(plan, keys, ds[1..], plan', keys', es[1..]);
    }
  }

  lemma DepsSelected(plan: Plan, n: Key)
    requires WellFormed(plan) && n in plan.selected
    ensures forall d <- DirectDeps(plan, n) :: d in plan.selected
  {
    var i :| 0 <= i < |plan.selected| && plan.selected[i] == n;
    forall d <- DirectDeps(plan, n)
      ensures d in plan.selected
    {
      assert d in plan.selected[..i];
    }
  }

  lemma NodeIsClean(hash: Hash, plan: Plan, keys: Keys, n: Key)
    requires (forall s :: IsSha(hash(s))) && WellFormed(plan) && Sound(hash, plan, keys) && n in plan.selected
    ensures CleanNode(plan, keys, n)
  {
    DepsSelected(plan, n);
    forall d <- DirectDeps(plan, n)
      ensures d in keys && IsSha(keys[d])
      ensures d in plan.facts && OneLine(plan.facts[d].package) && OneLine(plan.facts[d].logical)
    {
      assert d in plan.selected;
    }
  }

  lemma KeyIsOfLines(hash: Hash, texts: set<string>, plan: Plan, keys: Keys, n: Key, plan': Plan, keys': Keys, m: Key)
    requires Digest(hash, texts) && Computed(hash, texts, plan, keys) && Computed(hash, texts, plan', keys')
    requires n in plan.selected && m in plan'.selected && keys[n] == keys'[m]
    ensures CleanNode(plan, keys, n) && CleanNode(plan', keys', m)
    ensures ActionLines(plan, keys, n) == ActionLines(plan', keys', m)
  {
    NodeIsClean(hash, plan, keys, n);
    NodeIsClean(hash, plan', keys', m);
    var (xs, ys) := (ActionLines(plan, keys, n), ActionLines(plan', keys', m));
    assert hash(JoinLines(xs)) == hash(JoinLines(ys));
    assert JoinLines(xs) == JoinLines(ys);
    assert xs[0] == "holbuild-action-v1" && ys[0] == "holbuild-action-v1";
    hide WellFormed, Sound, CleanNode, Ready, ActionLines, Covers, Digest;
    ActionOneLine(plan, keys, n);
    ActionOneLine(plan', keys', m);
    JoinLinesInjective(xs, ys);
  }

  /** Whatever the external objects are called, the lines before the dependencies' are alike. */
  lemma HeadCommits(hash: Hash, texts: set<string>, plan: Plan, keys: Keys, n: Key, plan': Plan, keys': Keys, m: Key)
    requires Digest(hash, texts) && Computed(hash, texts, plan, keys) && Computed(hash, texts, plan', keys')
    requires n in plan.selected && m in plan'.selected && keys[n] == keys'[m]
    ensures n in plan.facts && n in plan.configLines && m in plan'.facts && m in plan'.configLines
    ensures Head(plan.facts[n], plan.toolchainKey, plan.configLines[n]) == Head(plan'.facts[m], plan'.toolchainKey, plan'.configLines[m])
    ensures Ready(plan, keys, n) && Ready(plan', keys', m)
    ensures DepTexts(plan.facts, keys, DirectDeps(plan, n)) + ExternalTexts(plan.facts[n])
            == DepTexts(plan'.facts, keys', DirectDeps(plan', m)) + ExternalTexts(plan'.facts[m])
  {
    KeyIsOfLines(hash, texts, plan, keys, n, plan', keys', m);
    HeadHasNoDeps(plan.facts[n], plan.toolchainKey, plan.configLines[n]);
    HeadHasNoDeps(plan'.facts[m], plan'.toolchainKey, plan'.configLines[m]);
    hide WellFormed, Sound, Covers, Digest, Head, CleanFacts, CleanConfig, ExternalTexts, DirectDeps, Prefixed, DepTexts, NoDepLines;
    HeadDetermined(
      Head(plan.facts[n], plan.toolchainKey, plan.configLines[n]), DepTexts(plan.facts, keys, DirectDeps(plan, n)) + ExternalTexts(plan.facts[n]),
      Head(plan'.facts[m], plan'.toolchainKey, plan'.configLines[m]), DepTexts(plan'.facts, keys', DirectDeps(plan', m)) + ExternalTexts(plan'.facts[m]));
  }

  // ------------------------------------------------------------ dependencies and external objects

  /** The loads of a node: those its manifest declares, and those found in its source,
      which go with the source's digest. */
  function Loads(found: string -> set<string>, f: Facts): set<string> {
    (set l | l in f.declaredLoads) + found(f.sourceHash)
  }

  /** How a resolved node's dependencies and external objects stand to one another, as far
      as their texts could be taken for each other's. */
  ghost predicate Resolved(found: string -> set<string>, plan: Plan, n: Key) {
    && n in plan.facts
    && (forall d <- DirectDeps(plan, n) :: d in plan.facts)
    && var f := plan.facts[n];
       && (forall i, j | 0 <= i < j < |f.externalLibs| :: f.externalLibs[i] != f.externalLibs[j])
       && (forall t <- f.externalTheories :: !ReadsAsDep("HOL:" + t))
       // Only a load can be named so that it reads as a dependency,
       && (forall l <- f.externalLibs :: ReadsAsDep("HOLLIB:" + l) ==> l in Loads(found, f))
       // and a load is external exactly where no dependency has its name.
       && (forall l <- f.externalLibs, d <- DirectDeps(plan, n) :: plan.facts[d].logical != l)
       && (forall l <- Loads(found, f) :: ReadsAsDep("HOLLIB:" + l) ==>
             l in f.externalLibs || exists d <- DirectDeps(plan, n) :: plan.facts[d].logical == l)
  }

  ghost predicate AllResolved(found: string -> set<string>, plan: Plan) {
    forall n <- plan.selected :: Resolved(found, plan, n)
  }

  lemma PrefixedIn(prefix: string, xs: seq<string>, x: string)
    ensures prefix + x in Prefixed(prefix, xs) <==> x in xs
  {
    var r := Prefixed(prefix, xs);
    if prefix + x in r {
      var i :| 0 <= i < |r| && r[i] == prefix + x;
      AfterPrefix(prefix, xs[i], x);
    }
    if x in xs {
      var i :| 0 <= i < |xs| && xs[i] == x;
      assert r[i] == prefix + x;
    }
  }

  ghost predicate NoLoadLines(xs: seq<string>) {
    forall x <- xs :: !IsLoadLine(x)
  }

  lemma NoLoadLinesPrefixed(prefix: string, xs: seq<string>)
    requires |prefix| >= 10 && prefix[9] != 'l'
    ensures NoLoadLines(Prefixed(prefix, xs))
  {
    forall y <- Prefixed(prefix, xs)
      ensures !IsLoadLine(y)
    {
      assert y[9] == prefix[9];
    }
  }

  lemma {:induction false} InputLinesNoLoads(inputs: seq<Input>)
    ensures NoLoadLines(InputLines(inputs))
  {
    if inputs != [] {
      var first := inputs[0];
      assert DeclLine(first)[0] == InputTag(first)[0] != 'd';
      forall y <- FileLines(first)
        ensures y[0] != 'd'
      {}
      InputLinesNoLoads(inputs[1..]);
    }
  }

  lemma OpeningNoLoads(f: Facts, toolchainKey: string)
    ensures NoLoadLines(Opening(f, toolchainKey)) && NoLoadLines(Policy(f))
  {
    forall x <- Opening(f, toolchainKey)
      ensures x[0] != 'd'
    {}
    forall x <- Policy(f)
      ensures x[0] != 'd'
    {
      match f.sourceName
      case Some(name) => assert ("source-name=" + name)[0] == 's';
      case None =>
    }
  }

  /** The declared loads are those of the lines. */
  lemma LoadLines(f: Facts, toolchainKey: string, configLines: seq<string>, l: string)
    requires CleanConfig(configLines)
    ensures "declared_load=" + l in Head(f, toolchainKey, configLines) <==> l in f.declaredLoads
  {
    OpeningNoLoads(f, toolchainKey);
    NoLoadLinesPrefixed("declared_dep=", f.declaredDeps);
    NoLoadLinesPrefixed("source_extra_output=", f.extraOutputs);
    InputLinesNoLoads(f.inputs);
    PrefixedIn("declared_load=", f.declaredLoads, l);
    assert IsLoadLine("declared_load=" + l);
    assert NoLoadLines(configLines);
    hide Prefixed, InputLines, Opening, Policy, IsLoadLine, CleanConfig;
  }

  /** So nodes with equal lines before their dependencies' have equal loads. */
  lemma HeadSaysLoads(found: string -> set<string>, f: Facts, g: Facts, t: string, u: string, xs: seq<string>, ys: seq<string>)
    requires CleanConfig(xs) && CleanConfig(ys) && Head(f, t, xs) == Head(g, u, ys)
    ensures Loads(found, f) == Loads(found, g)
  {
    HeadSays(f, g, t, u, xs, ys);
    hide Head, CleanConfig;
    forall l
      ensures l in f.declaredLoads <==> l in g.declaredLoads
    {
      LoadLines(f, t, xs, l);
      LoadLines(g, u, ys, l);
    }
  }

  /** Two nodes with one key, of plans that resolved them. */
  ghost predicate Alike(hash: Hash, texts: set<string>, found: string -> set<string>, plan: Plan, keys: Keys, n: Key, plan': Plan, keys': Keys, m: Key) {
    && Digest(hash, texts) && Computed(hash, texts, plan, keys) && Computed(hash, texts, plan', keys')
    && n in plan.selected && m in plan'.selected && keys[n] == keys'[m]
    && Resolved(found, plan, n) && Resolved(found, plan', m)
  }

  /** An external library that stands where the other node has a dependency. */
  lemma ExternalAt(f: Facts, i: nat) returns (l: string)
    requires i < |ExternalTexts(f)| && ReadsAsDep(ExternalTexts(f)[i])
    requires forall t <- f.externalTheories :: !ReadsAsDep("HOL:" + t)
    ensures |f.externalTheories| <= i && i - |f.externalTheories| < |f.externalLibs|
    ensures l == f.externalLibs[i - |f.externalTheories|] && ExternalTexts(f)[i] == "HOLLIB:" + l
  {
    var k := |f.externalTheories|;
    forall j | 0 <= j < k
      ensures !ReadsAsDep(ExternalTexts(f)[j])
    {
      assert f.externalTheories[j] in f.externalTheories;
    }
    l := f.externalLibs[i - k];
  }

  lemma LibraryStands(f: Facts, l: string) returns (i: nat)
    requires l in f.externalLibs
    ensures i < |ExternalTexts(f)| && ExternalTexts(f)[i] == "HOLLIB:" + l
  {
    var k :| 0 <= k < |f.externalLibs| && f.externalLibs[k] == l;
    i := |f.externalTheories| + k;
  }

  lemma StandsOnce(f: Facts, p: nat, q: nat, l: string)
    requires forall i, j | 0 <= i < j < |f.externalLibs| :: f.externalLibs[i] != f.externalLibs[j]
    requires p < |ExternalTexts(f)| && q < |ExternalTexts(f)| && ExternalTexts(f)[p] == "HOLLIB:" + l == ExternalTexts(f)[q]
    ensures p == q
  {
    var k := |f.externalTheories|;
    assert forall i | 0 <= i < k :: ExternalTexts(f)[i][3] == ':';
    assert ("HOLLIB:" + l)[3] == 'L';
    AfterPrefix("HOLLIB:", f.externalLibs[p - k], l);
    AfterPrefix("HOLLIB:", f.externalLibs[q - k], l);
  }

  lemma NotExternalToo(f: Facts, g: Facts, a: seq<string>, c: seq<string>, i: nat, l: string)
    requires forall i, j | 0 <= i < j < |f.externalLibs| :: f.externalLibs[i] != f.externalLibs[j]
    requires a + ExternalTexts(f) == c + ExternalTexts(g) && |a| <= i < |c| && c[i] == "HOLLIB:" + l
    ensures l !in g.externalLibs
  {
    var all := a + ExternalTexts(f);
    assert all[i] == c[i] == ExternalTexts(f)[i - |a|];
    hide ExternalTexts;
    if l in g.externalLibs {
      var q := LibraryStands(g, l);
      assert all[|c| + q] == ExternalTexts(g)[q] == ExternalTexts(f)[|c| + q - |a|];
      StandsOnce(f, i - |a|, |c| + q - |a|, l);
    }
  }

  /** A library of one node that stands among the other's dependencies is a load of both,
      and the other has a dependency of its name. */
  lemma DependencyOfItsName(hash: Hash, texts: set<string>, found: string -> set<string>, plan: Plan, keys: Keys, n: Key, plan': Plan, keys': Keys, m: Key, i: nat)
    returns (l: string, d: Key)
    requires Alike(hash, texts, found, plan, keys, n, plan', keys', m) && Ready(plan', keys', m)
    requires |DirectDeps(plan, n)| <= i < |DirectDeps(plan', m)|
    ensures l in plan.facts[n].externalLibs && DepTexts(plan'.facts, keys', DirectDeps(plan', m))[i] == "HOLLIB:" + l
    ensures d in DirectDeps(plan', m) && plan'.facts[d].logical == l
  {
    hide Digest, Computed, Head, CleanFacts, CleanConfig, DirectDeps, DepTexts, ExternalTexts, Loads, ReadsAsDep;
    var (f, g) := (plan.facts[n], plan'.facts[m]);
    var (ds, es) := (DirectDeps(plan, n), DirectDeps(plan', m));
    HeadCommits(hash, texts, plan, keys, n, plan', keys', m);
    KeyIsOfLines(hash, texts, plan, keys, n, plan', keys', m);
    HeadSaysLoads(found, f, g, plan.toolchainKey, plan'.toolchainKey, plan.configLines[n], plan'.configLines[m]);
    DepTextsRead(plan'.facts, keys', es);
    var (a, c) := (DepTexts(plan.facts, keys, ds), DepTexts(plan'.facts, keys', es));
    assert (a + ExternalTexts(f))[i] == (c + ExternalTexts(g))[i];
    l := ExternalAt(f, i - |a|);
    assert l in f.externalLibs && l in Loads(found, g);
    NotExternalToo(f, g, a, c, i, l);
    d :| d in es && plan'.facts[d].logical == l;
  }

  /** Dependencies with one key have one name. */
  lemma SameKeySameName(hash: Hash, texts: set<string>, plan: Plan, keys: Keys, d: Key, plan': Plan, keys': Keys, e: Key)
    requires Digest(hash, texts) && Computed(hash, texts, plan, keys) && Computed(hash, texts, plan', keys')
    requires d in plan.selected && e in plan'.selected && d in plan.facts && e in plan'.facts && keys[d] == keys'[e]
    ensures plan.facts[d].package == plan'.facts[e].package && plan.facts[d].logical == plan'.facts[e].logical
  {
    HeadCommits(hash, texts, plan, keys, d, plan', keys', e);
    HeadSays(plan.facts[d], plan'.facts[e], plan.toolchainKey, plan'.toolchainKey, plan.configLines[d], plan'.configLines[e]);
  }

  /** Its text is longer, and stands past the first node's dependencies too: among them,
      that node would have a dependency of its library's name. */
  lemma LongerOne(hash: Hash, texts: set<string>, found: string -> set<string>, plan: Plan, keys: Keys, n: Key, plan': Plan, keys': Keys, m: Key, i: nat)
    returns (j: nat)
    requires Alike(hash, texts, found, plan, keys, n, plan', keys', m) && Ready(plan', keys', m)
    requires |DirectDeps(plan, n)| <= i < |DirectDeps(plan', m)|
    ensures |DirectDeps(plan, n)| <= j < |DirectDeps(plan', m)|
    ensures var c := DepTexts(plan'.facts, keys', DirectDeps(plan', m)); |c[j]| > |c[i]|
  {
    hide Digest, Computed, Head, Resolved, CleanNode, DirectDeps, DepTexts, ExternalTexts, ActionLines;
    var (ds, es) := (DirectDeps(plan, n), DirectDeps(plan', m));
    var l, d := DependencyOfItsName(hash, texts, found, plan, keys, n, plan', keys', m, i);
    HeadCommits(hash, texts, plan, keys, n, plan', keys', m);
    DepsKnown(hash, texts, plan, keys, n);
    DepsKnown(hash, texts, plan', keys', m);
    var (a, c) := (DepTexts(plan.facts, keys, ds), DepTexts(plan'.facts, keys', es));
    j :| 0 <= j < |es| && es[j] == d;
    assert |c[j]| == |plan'.facts[d].package| + 1 + |l| + 1 + 64;
    if j < |ds| {
      var x := ds[j];
      assert x in ds;
      assert (a + ExternalTexts(plan.facts[n]))[j] == a[j] == c[j];
      SplitAtKey(plan.facts[x].package + ":" + plan.facts[x].logical, plan'.facts[d].package + ":" + plan'.facts[d].logical, keys[x], keys'[d]);
      SameKeySameName(hash, texts, plan, keys, x, plan', keys', d);
      LibraryIsNoDep(found, plan, n, l, x);
    }
  }

  lemma LibraryIsNoDep(found: string -> set<string>, plan: Plan, n: Key, l: string, d: Key)
    requires Resolved(found, plan, n) && l in plan.facts[n].externalLibs && d in DirectDeps(plan, n)
    ensures d in plan.facts && plan.facts[d].logical != l
  {
    hide ReadsAsDep, Loads, DirectDeps;
  }

  lemma DepsKnown(hash: Hash, texts: set<string>, plan: Plan, keys: Keys, n: Key)
    requires Digest(hash, texts) && Computed(hash, texts, plan, keys) && n in plan.selected
    ensures Ready(plan, keys, n)
    ensures forall d <- DirectDeps(plan, n) :: d in plan.selected && d in keys && d in plan.facts && IsSha(keys[d]) && |keys[d]| == 64
  {
    NodeIsClean(hash, plan, keys, n);
    DepsSelected(plan, n);
  }

  function Longest(xs: seq<string>): (n: nat)
    ensures forall i | 0 <= i < |xs| :: |xs[i]| <= n
  {
    if xs == [] then 0 else if |xs[0]| > Longest(xs[1..]) then |xs[0]| else Longest(xs[1..])
  }

  /** There is no end to them, so there is none. */
  lemma {:induction false} NoneStandsThere(hash: Hash, texts: set<string>, found: string -> set<string>, plan: Plan, keys: Keys, n: Key, plan': Plan, keys': Keys, m: Key, i: nat)
    requires Alike(hash, texts, found, plan, keys, n, plan', keys', m) && Ready(plan', keys', m)
    requires |DirectDeps(plan, n)| <= i < |DirectDeps(plan', m)|
    ensures false
    decreases Longest(DepTexts(plan'.facts, keys', DirectDeps(plan', m))) - |DepTexts(plan'.facts, keys', DirectDeps(plan', m))[i]|
  {
    hide Alike, DirectDeps, DepTexts;
    var j := LongerOne(hash, texts, found, plan, keys, n, plan', keys', m, i);
    NoneStandsThere(hash, texts, found, plan, keys, n, plan', keys', m, j);
  }

  lemma NoMoreDependencies(hash: Hash, texts: set<string>, found: string -> set<string>, plan: Plan, keys: Keys, n: Key, plan': Plan, keys': Keys, m: Key)
    requires Alike(hash, texts, found, plan, keys, n, plan', keys', m) && Ready(plan', keys', m)
    ensures |DirectDeps(plan', m)| <= |DirectDeps(plan, n)|
  {
    if |DirectDeps(plan, n)| < |DirectDeps(plan', m)| {
      NoneStandsThere(hash, texts, found, plan, keys, n, plan', keys', m, |DirectDeps(plan, n)|);
    }
  }

  /** Two keys alike are of nodes alike: the same lines, dependencies with the same keys in
      the same order, and the same external objects, whatever any of them is called. */
  lemma KeyCommits(hash: Hash, texts: set<string>, found: string -> set<string>, plan: Plan, keys: Keys, n: Key, plan': Plan, keys': Keys, m: Key)
    requires Alike(hash, texts, found, plan, keys, n, plan', keys', m)
    ensures Ready(plan, keys, n) && Ready(plan', keys', m)
    ensures ActionLines(plan, keys, n) == ActionLines(plan', keys', m)
    ensures Head(plan.facts[n], plan.toolchainKey, plan.configLines[n]) == Head(plan'.facts[m], plan'.toolchainKey, plan'.configLines[m])
    ensures Lookup(keys, DirectDeps(plan, n)) == Lookup(keys', DirectDeps(plan', m))
    ensures ExternalTexts(plan.facts[n]) == ExternalTexts(plan'.facts[m])
  {
    var (f, g) := (plan.facts[n], plan'.facts[m]);
    var (ds, es) := (DirectDeps(plan, n), DirectDeps(plan', m));
    HeadCommits(hash, texts, plan, keys, n, plan', keys', m);
    KeyIsOfLines(hash, texts, plan, keys, n, plan', keys', m);
    NoMoreDependencies(hash, texts, found, plan, keys, n, plan', keys', m);
    NoMoreDependencies(hash, texts, found, plan', keys', m, plan, keys, n);
    hide Digest, Computed, Resolved, Head, ActionLines, DirectDeps, DepTexts, ExternalTexts, Lookup;
    var (a, c) := (DepTexts(plan.facts, keys, ds), DepTexts(plan'.facts, keys', es));
    var all := a + ExternalTexts(f);
    assert |a| == |c| && a == all[..|a|] == c && ExternalTexts(f) == all[|a|..] == ExternalTexts(g);
    DepKeysSame(plan, keys, ds, plan', keys', es);
  }

  lemma LookupReady(plan: Plan, keys: Keys, n: Key)
    requires Ready(plan, keys, n)
    ensures Lookup(keys, DirectDeps(plan, n)).Some?
  {}

  lemma DepsAlike(keys: Keys, ds: seq<Key>, keys': Keys, es: seq<Key>)
    requires Lookup(keys, ds).Some? && Lookup(keys, ds) == Lookup(keys', es)
    ensures |ds| == |es|
    ensures forall i | 0 <= i < |ds| :: ds[i] in keys && es[i] in keys' && keys[ds[i]] == keys'[es[i]]
  {
    match Lookup(keys, ds)
    case Some(found) =>
      forall i | 0 <= i < |ds|
        ensures ds[i] in keys && es[i] in keys' && keys[ds[i]] == keys'[es[i]]
      {
        assert ds[i] in ds && es[i] in es;
        assert found[i] == keys[ds[i]];
      }
  }

  /** The node a walk by dependency positions leads to. */
  function Descend(plan: Plan, n: Key, path: seq<nat>): Option<Key>
    decreases |path|
  {
    if path == [] then Some(n)
    else if path[0] < |DirectDeps(plan, n)| then Descend(plan, DirectDeps(plan, n)[path[0]], path[1..])
    else None
  }

  /** The walk leads nowhere from either node, or to nodes with the same key and lines. */
  ghost predicate WalksAlike(plan: Plan, keys: Keys, n: Key, plan': Plan, keys': Keys, m: Key, path: seq<nat>) {
    match (Descend(plan, n, path), Descend(plan', m, path))
    case (Some(x), Some(y)) =>
      && x in plan.selected && y in plan'.selected && x in keys && y in keys' && keys[x] == keys'[y]
      && Ready(plan, keys, x) && Ready(plan', keys', y) && ActionLines(plan, keys, x) == ActionLines(plan', keys', y)
    case (None, None) => true
    case _ => false
  }

  /** So a key commits to the whole closure: from nodes with the same key, in any two
      plans, the same walks lead to nodes with the same keys and the same lines. */
  lemma {:induction false} KeyCommitsToClosure(hash: Hash, texts: set<string>, found: string -> set<string>, plan: Plan, keys: Keys, n: Key, plan': Plan, keys': Keys, m: Key, path: seq<nat>)
    requires Digest(hash, texts) && Computed(hash, texts, plan, keys) && Computed(hash, texts, plan', keys')
    requires AllResolved(found, plan) && AllResolved(found, plan')
    requires n in plan.selected && m in plan'.selected && keys[n] == keys'[m]
    ensures WalksAlike(plan, keys, n, plan', keys', m, path)
    decreases |path|
  {
    hide WellFormed, DepsFirst, Digest, Sound, Covers, ActionLines, Ready, DirectDeps, ExternalTexts, Head, Resolved;
    KeyCommits(hash, texts, found, plan, keys, n, plan', keys', m);
    KeyIsHash(hash, plan, keys, n);
    KeyIsHash(hash, plan', keys', m);
    if path != [] {
      var (ds, es) := (DirectDeps(plan, n), DirectDeps(plan', m));
      LookupReady(plan, keys, n);
      DepsAlike(keys, ds, keys', es);
      DepsSelected(plan, n);
      DepsSelected(plan', m);
      if path[0] < |ds| {
        assert ds[path[0]] in ds && es[path[0]] in es;
        KeyCommitsToClosure(hash, texts, found, plan, keys, ds[path[0]], plan', keys', es[path[0]], path[1..]);
      }
    }
  }

  /** A walk of the graph is a walk by positions. */
  lemma {:induction false} WalkDown(plan: Plan, walk: seq<Key>) returns (path: seq<nat>)
    requires IsWalk(plan.graph, walk)
    ensures Descend(plan, walk[0], path) == Some(walk[|walk| - 1])
    decreases |walk|
  {
    if |walk| == 1 {
      path := [];
    } else {
      var rest := WalkDown(plan, walk[1..]);
      var deps := DirectDeps(plan, walk[0]);
      assert walk[1] in Edges(plan.graph, walk[0]);
      var i :| 0 <= i < |deps| && deps[i] == walk[1];
      path := [i] + rest;
      assert path[1..] == rest;
    }
  }

  /** Every node reachable from `n` has its like, with the same key and lines, reachable
      from a node with the same key. */
  lemma EveryDependencyIsCommitted(hash: Hash, texts: set<string>, found: string -> set<string>, plan: Plan, keys: Keys, n: Key, plan': Plan, keys': Keys, m: Key, d: Key)
    requires Digest(hash, texts) && Computed(hash, texts, plan, keys) && Computed(hash, texts, plan', keys')
    requires AllResolved(found, plan) && AllResolved(found, plan')
    requires n in plan.selected && m in plan'.selected && keys[n] == keys'[m] && Reached(plan.graph, [n], d)
    ensures exists path, e :: Descend(plan', m, path) == Some(e) && e in plan'.selected && d in plan.selected && keys[d] == keys'[e]
              && Ready(plan, keys, d) && Ready(plan', keys', e) && ActionLines(plan, keys, d) == ActionLines(plan', keys', e)
  {
    hide WellFormed, Sound, Covers, Digest, AllResolved, ActionLines, Ready;
    var walk :| IsWalk(plan.graph, walk) && walk[0] in [n] && walk[|walk| - 1] == d;
    var path := WalkDown(plan, walk);
    KeyCommitsToClosure(hash, texts, found, plan, keys, n, plan', keys', m, path);
    hide *;
    match Descend(plan', m, path)
    case Some(e) => assert Descend(plan', m, path) == Some(e);
    case None =>
  }

  /** The configuration lines every caller of the planner passes. */
  function PolicyConfigLines(manifestVersion: string): seq<string> {
    ["theory_manifest_version=" + manifestVersion]
  }

  lemma CallersAreClean(manifestVersion: string)
    requires OneLine(manifestVersion)
    ensures CleanConfig(PolicyConfigLines(manifestVersion))
  {
    assert ("theory_manifest_version=" + manifestVersion)[0] == 't';
  }

  // ------------------------------------------------------------ the fold meets no missing key

  lemma {:induction false} DepTextsFrame(facts: map<Key, Facts>, keys: Keys, keys': Keys, deps: seq<Key>)
    requires forall d <- deps :: d in facts && d in keys && d in keys' && keys[d] == keys'[d]
    ensures DepTexts(facts, keys, deps) == DepTexts(facts, keys', deps)
  {
    if deps != [] { DepTextsFrame(facts, keys, keys', deps[1..]); }
  }

  /** The keys of the first `i` nodes, each the hash of its lines. */
  ghost predicate SoundUpTo(hash: Hash, plan: Plan, keys: Keys, i: nat)
    requires i <= |plan.selected|
  {
    keys.Keys == Elements(plan.selected[..i]) && forall n <- keys :: Keyed(hash, plan, keys, n)
  }

  lemma NextReady(hash: Hash, plan: Plan, keys: Keys, i: nat)
    requires WellFormed(plan) && i < |plan.selected| && SoundUpTo(hash, plan, keys, i)
    ensures Ready(plan, keys, plan.selected[i]) && Lookup(keys, DirectDeps(plan, plan.selected[i])).Some?
    ensures plan.selected[i] !in keys
  {
    var n := plan.selected[i];
    forall d <- DirectDeps(plan, n)
      ensures d in plan.facts && d in keys
    {
      assert d in plan.selected[..i];
      assert d in plan.selected;
    }
    assert forall j | 0 <= j < i :: plan.selected[j] != n;
  }

  lemma AddKeepsOne(hash: Hash, plan: Plan, keys: Keys, node: Key, k: Key)
    requires Ready(plan, keys, node) && node !in keys && (Keyed(hash, plan, keys, k) || k == node)
    ensures Keyed(hash, plan, WithKey(hash, plan, keys, node), k)
    ensures k in keys ==> WithKey(hash, plan, keys, node)[k] == keys[k]
  {
    DepTextsFrame(plan.facts, keys, WithKey(hash, plan, keys, node), DirectDeps(plan, k));
  }

  lemma ElementsNext(order: seq<Key>, i: nat)
    requires i < |order|
    ensures Elements(order[..i + 1]) == Elements(order[..i]) + {order[i]}
  {
    assert order[..i + 1] == order[..i] + [order[i]];
  }

  lemma AddKeeps(hash: Hash, plan: Plan, keys: Keys, i: nat)
    requires i < |plan.selected| && SoundUpTo(hash, plan, keys, i)
    requires Ready(plan, keys, plan.selected[i]) && plan.selected[i] !in keys
    ensures SoundUpTo(hash, plan, WithKey(hash, plan, keys, plan.selected[i]), i + 1)
    ensures forall n <- keys :: n in WithKey(hash, plan, keys, plan.selected[i]) && WithKey(hash, plan, keys, plan.selected[i])[n] == keys[n]
  {
    var n := plan.selected[i];
    var more := WithKey(hash, plan, keys, n);
    assert more.Keys == keys.Keys + {n};
    ElementsNext(plan.selected, i);
    hide Ready, WithKey, Keyed, Elements;
    forall k <- more
      ensures Keyed(hash, plan, more, k) && (k in keys ==> more[k] == keys[k])
    {
      AddKeepsOne(hash, plan, keys, n, k);
    }
  }

  /** On a deps-first order no dependency's key is ever missing, and each key is the
      hash of its node's lines with the keys before it. */
  lemma {:induction false} FoldNeverMisses(hash: Hash, plan: Plan, i: nat)
    requires WellFormed(plan) && i <= |plan.selected|
    ensures match FreshKeys(hash, plan, i)
            case Some(keys) => SoundUpTo(hash, plan, keys, i)
            case None => false
  {
    hide SoundUpTo, WellFormed, DepsFirst, Ready, ActionLines, WithKey;
    if i > 0 {
      FoldNeverMisses(hash, plan, i - 1);
      match FreshKeys(hash, plan, i - 1)
      case Some(keys) =>
        NextReady(hash, plan, keys, i - 1);
        AddKeeps(hash, plan, keys, i - 1);
    } else {
      NoneYet(hash, plan);
    }
  }

  lemma NoneYet(hash: Hash, plan: Plan)
    ensures SoundUpTo(hash, plan, map[], 0)
  {}

  lemma FreshIsSound(hash: Hash, plan: Plan)
    requires WellFormed(plan)
    ensures match FreshKeys(hash, plan, |plan.selected|)
            case Some(keys) => Sound(hash, plan, keys)
            case None => false
  {
    assert plan.selected[..|plan.selected|] == plan.selected;
    FoldNeverMisses(hash, plan, |plan.selected|);
  }

  // ------------------------------------------------------------ remembered keys

  /** What is kept with a node's key. */
  datatype Known = Known(toolchainKey: string, configLines: seq<string>, depKeys: seq<string>, inputKey: string, extraInputsKey: Option<string>)

  function ExtraInputsKey(hash: Hash, f: Facts): Option<string> {
    if f.inputs == [] then None else Some(hash(JoinLines(["holbuild-extra-inputs-v1"] + InputLines(f.inputs))))
  }

  /** What a computation for `plan` remembers of node `n`. */
  ghost predicate RememberedFrom(hash: Hash, texts: set<string>, known: Known, plan: Plan, keys: Keys, n: Key) {
    && Computed(hash, texts, plan, keys) && n in plan.selected
    && known == Known(plan.toolchainKey, plan.configLines[n], known.depKeys, keys[n], ExtraInputsKey(hash, plan.facts[n]))
    && Lookup(keys, DirectDeps(plan, n)) == Some(known.depKeys)
  }

  /** Whoever remembered the key vouches for what the node says of itself, its external
      objects included, and not for which nodes it depends on: it may come from any plan. */
  ghost predicate Vouched(hash: Hash, texts: set<string>, known: Known, f: Facts) {
    exists plan, keys, n :: RememberedFrom(hash, texts, known, plan, keys, n) && plan.facts[n] == f
  }

  lemma AfterPrefix(prefix: string, a: string, b: string)
    requires prefix + a == prefix + b
    ensures a == b
  {
    assert (prefix + a)[|prefix|..] == a && (prefix + b)[|prefix|..] == b;
  }

  lemma OpeningSays(f: Facts, g: Facts, t: string, u: string)
    requires Opening(f, t) == Opening(g, u)
    ensures t == u && f.kind == g.kind && f.package == g.package && f.logical == g.logical
    ensures f.source == g.source && f.sourceHash == g.sourceHash
  {
    var (a, b) := (Opening(f, t), Opening(g, u));
    assert a[1] == b[1] && a[2] == b[2] && a[3] == b[3] && a[4] == b[4] && a[5] == b[5] && a[6] == b[6];
    AfterPrefix("toolchain=", t, u);
    AfterPrefix("kind=", f.kind, g.kind);
    AfterPrefix("package=", f.package, g.package);
    AfterPrefix("logical=", f.logical, g.logical);
    AfterPrefix("source=", f.source, g.source);
    AfterPrefix("source-sha256=", f.sourceHash, g.sourceHash);
  }

  /** The lines give back what the node is. */
  lemma HeadSays(f: Facts, g: Facts, t: string, u: string, xs: seq<string>, ys: seq<string>)
    requires Head(f, t, xs) == Head(g, u, ys)
    ensures t == u && f.kind == g.kind && f.package == g.package && f.logical == g.logical
    ensures f.source == g.source && f.sourceHash == g.sourceHash
  {
    OpeningIsSeven(f, t);
    OpeningIsSeven(g, u);
    hide Policy, Declared, Opening;
    var (a, b) := (Head(f, t, xs), Head(g, u, ys));
    assert a[..7] == Opening(f, t) && b[..7] == Opening(g, u);
    OpeningSays(f, g, t, u);
  }

  lemma OpeningIsSeven(f: Facts, t: string)
    ensures |Opening(f, t)| == 7
  {}

  lemma BoolTextsDiffer(a: bool, b: bool)
    requires BoolText(a) == BoolText(b)
    ensures a == b
  {
    assert BoolText(a)[0] == BoolText(b)[0];
  }

  lemma LinesSayPolicy(cache: bool, always: bool, cache': bool, always': bool)
    requires "cache=" + BoolText(cache) == "cache=" + BoolText(cache')
    requires "always_reexecute=" + BoolText(always) == "always_reexecute=" + BoolText(always')
    ensures cache == cache' && always == always'
  {
    AfterPrefix("cache=", BoolText(cache), BoolText(cache'));
    AfterPrefix("always_reexecute=", BoolText(always), BoolText(always'));
    BoolTextsDiffer(cache, cache');
    BoolTextsDiffer(always, always');
  }

  lemma PolicySays(f: Facts, g: Facts, r: seq<string>, s: seq<string>)
    requires Policy(f) + r == Policy(g) + s
    ensures f.sourceName == g.sourceName && f.cache == g.cache && f.alwaysReexecute == g.alwaysReexecute
  {
    hide BoolText;
    var (p, q) := (Policy(f) + r, Policy(g) + s);
    assert p[0] == q[0] && p[1] == q[1];
    match (f.sourceName, g.sourceName)
    case (Some(n), Some(m)) =>
      assert p[2] == q[2];
      AfterPrefix("source-name=", n, m);
      LinesSayPolicy(f.cache, f.alwaysReexecute, g.cache, g.alwaysReexecute);
    case (None, None) => LinesSayPolicy(f.cache, f.alwaysReexecute, g.cache, g.alwaysReexecute);
    case (Some(n), None) => SourceNameOrCache(n, BoolText(g.cache));
    case (None, Some(m)) => SourceNameOrCache(m, BoolText(f.cache));
  }

  /** And its recorded path, if it has one, and its cache policy. */
  lemma HeadSaysPolicy(f: Facts, g: Facts, t: string, u: string, xs: seq<string>, ys: seq<string>)
    requires Head(f, t, xs) == Head(g, u, ys)
    ensures f.sourceName == g.sourceName && f.cache == g.cache && f.alwaysReexecute == g.alwaysReexecute
  {
    hide Policy, Declared;
    assert Head(f, t, xs)[7..] == Policy(f) + (xs + Declared(f));
    assert Head(g, u, ys)[7..] == Policy(g) + (ys + Declared(g));
    PolicySays(f, g, xs + Declared(f), ys + Declared(g));
  }

  lemma SourceNameOrCache(name: string, cache: string)
    ensures "source-name=" + name != "cache=" + cache
  {
    assert ("source-name=" + name)[0] != ("cache=" + cache)[0];
  }

  /** Equal keys are of the same source of the same package, built by the same toolchain
      under the same policy, whatever plans the nodes are in. */
  lemma KeySaysNode(hash: Hash, texts: set<string>, plan: Plan, keys: Keys, n: Key, plan': Plan, keys': Keys, m: Key)
    requires Digest(hash, texts) && Computed(hash, texts, plan, keys) && Computed(hash, texts, plan', keys')
    requires n in plan.selected && m in plan'.selected && keys[n] == keys'[m]
    ensures plan.toolchainKey == plan'.toolchainKey
    ensures var (f, g) := (plan.facts[n], plan'.facts[m]);
            && f.kind == g.kind && f.package == g.package && f.logical == g.logical
            && f.source == g.source && f.sourceHash == g.sourceHash && f.sourceName == g.sourceName
            && f.cache == g.cache && f.alwaysReexecute == g.alwaysReexecute
  {
    HeadCommits(hash, texts, plan, keys, n, plan', keys', m);
    HeadSays(plan.facts[n], plan'.facts[m], plan.toolchainKey, plan'.toolchainKey, plan.configLines[n], plan'.configLines[m]);
    HeadSaysPolicy(plan.facts[n], plan'.facts[m], plan.toolchainKey, plan'.toolchainKey, plan.configLines[n], plan'.configLines[m]);
  }

  /** Dependencies with the same keys are named alike: their keys commit to their names. */
  lemma {:induction false} SameKeysSameNames(hash: Hash, texts: set<string>, plan: Plan, keys: Keys, ds: seq<Key>, plan': Plan, keys': Keys, es: seq<Key>)
    requires Digest(hash, texts) && Computed(hash, texts, plan, keys) && Computed(hash, texts, plan', keys')
    requires (forall d <- ds :: d in plan.selected && d in plan.facts && d in keys) && (forall e <- es :: e in plan'.selected && e in plan'.facts && e in keys')
    requires Lookup(keys, ds) == Lookup(keys', es)
    ensures DepTexts(plan.facts, keys, ds) == DepTexts(plan'.facts, keys', es)
  {
    var (found, found') := (Lookup(keys, ds).value, Lookup(keys', es).value);
    assert |found| == |ds| && |found'| == |es|;
    if ds != [] {
      var (d, e) := (ds[0], es[0]);
      assert keys[d] == found[0] == found'[0] == keys'[e];
      HeadCommits(hash, texts, plan, keys, d, plan', keys', e);
      HeadSays(plan.facts[d], plan'.facts[e], plan.toolchainKey, plan'.toolchainKey, plan.configLines[d], plan'.configLines[e]);
      hide Sound, WellFormed, Covers, Computed, Digest, Head, ActionLines, Ready;
      assert found[1..] == found'[1..];
      SameKeysSameNames(hash, texts, plan, keys, ds[1..], plan', keys', es[1..]);
    }
  }

  /** A key reused is the key a fresh computation gives, though only the dependencies'
      keys were compared, and neither their names nor how many plans ago. */
  lemma ReusedIsFresh(hash: Hash, texts: set<string>, plan: Plan, keys: Keys, node: Key, known: Known)
    requires Digest(hash, texts) && Computed(hash, texts, plan, keys) && node in plan.selected
    requires Vouched(hash, texts, known, plan.facts[node])
    requires known.toolchainKey == plan.toolchainKey && known.configLines == plan.configLines[node]
    requires Lookup(keys, DirectDeps(plan, node)) == Some(known.depKeys)
    ensures known.inputKey == keys[node] && known.extraInputsKey == ExtraInputsKey(hash, plan.facts[node])
  {
    var plan', keys', n :| RememberedFrom(hash, texts, known, plan', keys', n) && plan'.facts[n] == plan.facts[node];
    DepsSelected(plan, node);
    DepsSelected(plan', n);
    NodeIsClean(hash, plan, keys, node);
    NodeIsClean(hash, plan', keys', n);
    SameKeysSameNames(hash, texts, plan, keys, DirectDeps(plan, node), plan', keys', DirectDeps(plan', n));
    assert ActionLines(plan, keys, node) == ActionLines(plan', keys', n);
  }

  ghost predicate Within(early: Option<Keys>, late: Option<Keys>) {
    early.Some? && late.Some? && forall n <- early.value :: n in late.value && late.value[n] == early.value[n]
  }

  lemma {:induction false} FoldAgrees(hash: Hash, plan: Plan, i: nat, j: nat)
    requires WellFormed(plan) && i <= j <= |plan.selected|
    ensures Within(FreshKeys(hash, plan, i), FreshKeys(hash, plan, j))
    decreases j
  {
    hide WellFormed, DepsFirst, Ready, ActionLines, SoundUpTo, WithKey;
    FoldNeverMisses(hash, plan, i);
    if i < j {
      FoldAgrees(hash, plan, i, j - 1);
      FoldNeverMisses(hash, plan, j - 1);
      match FreshKeys(hash, plan, j - 1)
      case Some(keys) =>
        NextReady(hash, plan, keys, j - 1);
        AddKeeps(hash, plan, keys, j - 1);
    }
  }

  /** What is remembered by node position. */
  ghost predicate AllVouched(hash: Hash, texts: set<string>, plan: Plan, known: array<Option<Known>>)
    reads known
  {
    && known.Length == |plan.selected|
    && forall i | 0 <= i < known.Length :: plan.selected[i] in plan.facts &&
        match known[i] case Some(k) => Vouched(hash, texts, k, plan.facts[plan.selected[i]]) case None => true
  }

  /** `input_key_with` for the node at position `i`, with the keys of those before it. */
  method InputKeyWith(hash: Hash, ghost texts: set<string>, plan: Plan, known: array<Option<Known>>, extra: array<Option<Option<string>>>, keys: Keys, i: nat, ghost all: Keys)
    returns (key: string)
    requires Digest(hash, texts) && Computed(hash, texts, plan, all) && i < |plan.selected| && plan.selected[i] in all
    requires Ready(plan, keys, plan.selected[i]) && forall n <- keys :: n in all && all[n] == keys[n]
    requires AllVouched(hash, texts, plan, known) && extra.Length == |plan.selected|
    modifies known, extra
    ensures key == all[plan.selected[i]] && key == hash(JoinLines(ActionLines(plan, keys, plan.selected[i])))
    ensures AllVouched(hash, texts, plan, known)
    ensures extra[i] == Some(ExtraInputsKey(hash, plan.facts[plan.selected[i]]))
    ensures forall j | 0 <= j < extra.Length && j != i :: extra[j] == old(extra[j])
  {
    hide WellFormed, Covers, CoversFresh, DepsFirst, Sound, ActionLines, Lookup, Vouched, Digest, DirectDeps, ExtraInputsKey;
    var node := plan.selected[i];
    var deps := DirectDeps(plan, node);
    var depKeys := Lookup(keys, deps).value;
    SameLines(plan, keys, all, node);
    hide Ready;
    match known[i] {
      case Some(k) =>
        if k.toolchainKey == plan.toolchainKey && k.configLines == plan.configLines[node] && k.depKeys == depKeys {
          ReusedIsFresh(hash, texts, plan, all, node, k);
          KeyIsHash(hash, plan, all, node);
          extra[i] := Some(k.extraInputsKey);
          return k.inputKey;
        }
      case None =>
    }
    key := hash(JoinLines(ActionLines(plan, keys, node)));
    KeyIsHash(hash, plan, all, node);
    var extraKey := ExtraInputsKey(hash, plan.facts[node]);
    var fact := Known(plan.toolchainKey, plan.configLines[node], depKeys, key, extraKey);
    Remembers(hash, texts, fact, plan, all, node);
    known[i] := Some(fact);
    extra[i] := Some(extraKey);
  }

  lemma SameLines(plan: Plan, keys: Keys, all: Keys, node: Key)
    requires Ready(plan, keys, node) && forall n <- keys :: n in all && all[n] == keys[n]
    ensures Ready(plan, all, node) && ActionLines(plan, keys, node) == ActionLines(plan, all, node)
    ensures Lookup(all, DirectDeps(plan, node)) == Lookup(keys, DirectDeps(plan, node))
  {
    LookupFrame(keys, all, DirectDeps(plan, node));
    DepTextsFrame(plan.facts, keys, all, DirectDeps(plan, node));
  }

  lemma Remembers(hash: Hash, texts: set<string>, known: Known, plan: Plan, keys: Keys, node: Key)
    requires Computed(hash, texts, plan, keys) && node in plan.selected && Lookup(keys, DirectDeps(plan, node)) == Some(known.depKeys)
    requires node in keys && Ready(plan, keys, node)
    requires known == Known(plan.toolchainKey, plan.configLines[node], known.depKeys, keys[node], ExtraInputsKey(hash, plan.facts[node]))
    ensures Vouched(hash, texts, known, plan.facts[node])
  {
    assert RememberedFrom(hash, texts, known, plan, keys, node);
  }

  lemma KeyIsHash(hash: Hash, plan: Plan, keys: Keys, node: Key)
    requires Sound(hash, plan, keys) && node in plan.selected
    ensures Ready(plan, keys, node) && node in keys && keys[node] == hash(JoinLines(ActionLines(plan, keys, node)))
  {}

  lemma {:induction false} LookupFrame(keys: Keys, keys': Keys, deps: seq<Key>)
    requires forall d <- deps :: d in keys && d in keys' && keys[d] == keys'[d]
    ensures Lookup(keys, deps) == Lookup(keys', deps)
  {
    if deps != [] { LookupFrame(keys, keys', deps[1..]); }
  }

  lemma NextKey(hash: Hash, plan: Plan, keys: Keys, i: nat, all: Keys)
    requires WellFormed(plan) && i < |plan.selected|
    requires FreshKeys(hash, plan, i) == Some(keys) && FreshKeys(hash, plan, |plan.selected|) == Some(all)
    ensures Ready(plan, keys, plan.selected[i]) && forall n <- keys :: n in all && all[n] == keys[n]
    ensures FreshKeys(hash, plan, i + 1) == Some(WithKey(hash, plan, keys, plan.selected[i]))
  {
    FoldNeverMisses(hash, plan, i);
    NextReady(hash, plan, keys, i);
    FoldAgrees(hash, plan, i, |plan.selected|);
  }

  /** `add_input_key_with` */
  method AddInputKeyWith(hash: Hash, ghost texts: set<string>, plan: Plan, known: array<Option<Known>>, extra: array<Option<Option<string>>>, keys: Keys, i: nat, ghost all: Keys)
    returns (more: Keys)
    requires Digest(hash, texts) && Computed(hash, texts, plan, all) && i < |plan.selected|
    requires FreshKeys(hash, plan, i) == Some(keys) && FreshKeys(hash, plan, |plan.selected|) == Some(all)
    requires AllVouched(hash, texts, plan, known) && extra.Length == |plan.selected|
    modifies known, extra
    ensures FreshKeys(hash, plan, i + 1) == Some(more) && AllVouched(hash, texts, plan, known)
    ensures plan.selected[i] in plan.facts && extra[i] == Some(ExtraInputsKey(hash, plan.facts[plan.selected[i]]))
    ensures forall j | 0 <= j < extra.Length && j != i :: extra[j] == old(extra[j])
  {
    hide WellFormed, Covers, CoversFresh, DepsFirst, Sound, ActionLines, Ready, Digest, Vouched, FreshKeys, ExtraInputsKey, DirectDeps, JoinLines;
    NextKey(hash, plan, keys, i, all);
    KeyIsHash(hash, plan, all, plan.selected[i]);
    var key := InputKeyWith(hash, texts, plan, known, extra, keys, i, all);
    more := keys[plan.selected[i] := key];
  }

  /** The hash is asked for the texts of the plan's nodes, as a fresh computation makes them. */
  ghost predicate CoversFresh(hash: Hash, texts: set<string>, plan: Plan) {
    match FreshKeys(hash, plan, |plan.selected|) case Some(keys) => Covers(texts, plan, keys) case None => true
  }

  lemma FreshIsComputed(hash: Hash, texts: set<string>, plan: Plan)
    requires WellFormed(plan) && CoversFresh(hash, texts, plan)
    ensures match FreshKeys(hash, plan, |plan.selected|)
            case Some(keys) => Computed(hash, texts, plan, keys) && Sound(hash, plan, keys)
            case None => false
  {
    FreshIsSound(hash, plan);
  }

  lemma FactsAreThere(plan: Plan)
    requires WellFormed(plan)
    ensures forall j | 0 <= j < |plan.selected| :: plan.selected[j] in plan.facts
  {}

  lemma FreshAtFirst(hash: Hash, plan: Plan)
    ensures FreshKeys(hash, plan, 0) == Some(map[])
  {}

  /** `compute_input_keys_with`: whatever is remembered, the keys are the fresh ones, and
      what is remembered afterwards can be used again. */
  method ComputeInputKeys(hash: Hash, ghost texts: set<string>, plan: Plan, known: array<Option<Known>>, extra: array<Option<Option<string>>>) returns (keys: Keys)
    requires Digest(hash, texts) && WellFormed(plan) && CoversFresh(hash, texts, plan)
    requires AllVouched(hash, texts, plan, known) && extra.Length == |plan.selected|
    modifies known, extra
    ensures FreshKeys(hash, plan, |plan.selected|) == Some(keys) && Sound(hash, plan, keys)
    ensures AllVouched(hash, texts, plan, known)
    ensures forall i | 0 <= i < |plan.selected| :: extra[i] == Some(ExtraInputsKey(hash, plan.facts[plan.selected[i]]))
  {
    hide *;
    FreshIsComputed(hash, texts, plan);
    ghost var all := FreshKeys(hash, plan, |plan.selected|).value;
    FreshAtFirst(hash, plan);
    FactsAreThere(plan);
    keys := map[];
    var i := 0;
    while i < |plan.selected|
      invariant i <= |plan.selected|
      invariant FreshKeys(hash, plan, i) == Some(keys)
      invariant AllVouched(hash, texts, plan, known)
      invariant forall j | 0 <= j < i :: extra[j] == Some(ExtraInputsKey(hash, plan.facts[plan.selected[j]]))
    {
      keys := AddInputKeyWith(hash, texts, plan, known, extra, keys, i, all);
      i := i + 1;
    }
  }
}
