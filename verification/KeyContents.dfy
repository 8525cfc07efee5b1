/** What equal action keys say of their nodes: everything, the contents of extra inputs included. */
module KeyContents {
  import opened Wrappers
  import opened Collections
  import opened Text
  import opened KeyIndex
  import opened PlanSort
  import opened PlanKeys

  /** The same declarations in order, and of each the same files with the same contents,
      in whatever order they were found. */
  ghost predicate SameInputs(xs: seq<Input>, ys: seq<Input>) {
    && |xs| == |ys|
    && forall i | 0 <= i < |xs| ::
         xs[i].manifest == ys[i].manifest && xs[i].decl == ys[i].decl && multiset(xs[i].files) == multiset(ys[i].files)
  }

  // ------------------------------------------------------------ one input

  /** Two lists, each of lines without a mark and then, if any, one with it, come apart alike. */
  lemma SplitAtFirst(mark: string -> bool, a: seq<string>, b: seq<string>, c: seq<string>, d: seq<string>)
    requires a + b == c + d
    requires (forall i | 0 <= i < |a| :: !mark(a[i])) && (forall i | 0 <= i < |c| :: !mark(c[i]))
    requires (b == [] || mark(b[0])) && (d == [] || mark(d[0]))
    ensures a == c && b == d
  {
    var all := a + b;
    assert forall i | 0 <= i < |a| :: !mark(all[i]);
    assert forall i | 0 <= i < |c| :: !mark((c + d)[i]);
    assert b != [] ==> mark(all[|a|]);
    assert d != [] ==> mark((c + d)[|c|]);
    assert a == all[..|a|] && c == all[..|c|] && b == all[|a|..] && d == all[|c|..];
  }

  predicate Has(s: string, k: nat, c: char) {
    k < |s| && s[k] == c
  }

  /** A line declares an input by the letter after its label. */
  predicate IsDeclLine(s: string) {
    (Has(s, 0, 'e') && Has(s, 9, '_')) || (Has(s, 0, 's') && Has(s, 16, '_'))
  }

  lemma PrefixedHas(prefix: string, xs: seq<string>, k: nat)
    requires k < |prefix|
    ensures forall i | 0 <= i < |xs| :: Has(Prefixed(prefix, xs)[i], k, prefix[k])
  {}

  lemma DeclIsDecl(input: Input)
    ensures IsDeclLine(DeclLine(input))
  {}

  lemma FilesAreNot(input: Input)
    ensures forall i | 0 <= i < |FileLines(input)| :: !IsDeclLine(FileLines(input)[i])
  {
    var tag := InputTag(input) + "=";
    var k := if input.manifest then 9 else 16;
    assert tag[0] == (if input.manifest then 'e' else 's') && tag[k] == '=';
    PrefixedHas(tag, FileTexts(input.files), 0);
    PrefixedHas(tag, FileTexts(input.files), k);
    hide InputTag, FileTexts, Prefixed;
  }

  lemma DeclSays(x: Input, y: Input)
    requires DeclLine(x) == DeclLine(y)
    ensures x.manifest == y.manifest && x.decl == y.decl
  {
    assert DeclLine(x)[0] == InputTag(x)[0] && DeclLine(y)[0] == InputTag(y)[0];
    AfterPrefix(InputTag(x) + "_decl=", x.decl, y.decl);
  }

  lemma FileTextsSay(xs: seq<InputFile>, ys: seq<InputFile>)
    requires (forall f <- xs :: IsSha(f.hash)) && (forall f <- ys :: IsSha(f.hash)) && FileTexts(xs) == FileTexts(ys)
    ensures multiset(xs) == multiset(ys)
  {
    hide IsSha;
    forall x <- xs, y <- ys | FileText(x) == FileText(y)
      ensures x == y
    {
      SplitAtKey(x.path, y.path, x.hash, y.hash);
    }
    SortCanonical(Map(FileText, xs), Map(FileText, ys));
    PermutationOfMap(FileText, xs, ys);
  }

  lemma FileLinesSay(x: Input, y: Input)
    requires x.manifest == y.manifest && CleanInput(x) && CleanInput(y) && FileLines(x) == FileLines(y)
    ensures multiset(x.files) == multiset(y.files)
  {
    PrefixedInjective(InputTag(x) + "=", FileTexts(x.files), FileTexts(y.files));
    FileTextsSay(x.files, y.files);
  }

  // ------------------------------------------------------------ all inputs

  lemma StartsWithDecl(inputs: seq<Input>)
    ensures InputLines(inputs) == [] || IsDeclLine(InputLines(inputs)[0])
    ensures InputLines(inputs) == [] <==> inputs == []
  {
    if inputs != [] { DeclIsDecl(inputs[0]); }
  }

  lemma {:induction false} InputLinesSay(xs: seq<Input>, ys: seq<Input>)
    requires CleanInputs(xs) && CleanInputs(ys) && InputLines(xs) == InputLines(ys)
    ensures SameInputs(xs, ys)
  {
    hide CleanInput, DeclLine, FileLines, IsDeclLine, SameInputs;
    StartsWithDecl(xs);
    StartsWithDecl(ys);
    if xs != [] {
      var (x, y) := (xs[0], ys[0]);
      assert x in xs && y in ys && (forall i <- xs[1..] :: i in xs) && (forall i <- ys[1..] :: i in ys);
      assert InputLines(xs) == [DeclLine(x)] + FileLines(x) + InputLines(xs[1..]);
      assert InputLines(ys) == [DeclLine(y)] + FileLines(y) + InputLines(ys[1..]);
      hide InputLines;
      FirstInputSays(x, y, xs[1..], ys[1..]);
      InputLinesSay(xs[1..], ys[1..]);
      SameMore(x, y, xs[1..], ys[1..]);
      assert xs == [x] + xs[1..] && ys == [y] + ys[1..];
    } else {
      SameNone();
    }
  }

  lemma SameNone()
    ensures SameInputs([], [])
  {}

  lemma SameMore(x: Input, y: Input, xs: seq<Input>, ys: seq<Input>)
    requires x.manifest == y.manifest && x.decl == y.decl && multiset(x.files) == multiset(y.files) && SameInputs(xs, ys)
    ensures SameInputs([x] + xs, [y] + ys)
  {}

  lemma FirstInputSays(x: Input, y: Input, xs: seq<Input>, ys: seq<Input>)
    requires CleanInput(x) && CleanInput(y)
    requires [DeclLine(x)] + FileLines(x) + InputLines(xs) == [DeclLine(y)] + FileLines(y) + InputLines(ys)
    ensures x.manifest == y.manifest && x.decl == y.decl && multiset(x.files) == multiset(y.files) && InputLines(xs) == InputLines(ys)
  {
    StartsWithDecl(xs);
    StartsWithDecl(ys);
    FilesAreNot(x);
    FilesAreNot(y);
    hide IsDeclLine, FileLines, InputLines, CleanInput, DeclLine;
    FirstLine(DeclLine(x), FileLines(x), InputLines(xs), DeclLine(y), FileLines(y), InputLines(ys));
    DeclSays(x, y);
    SplitAtFirst(IsDeclLine, FileLines(x), InputLines(xs), FileLines(y), InputLines(ys));
    FileLinesSay(x, y);
  }

  lemma FirstLine(d: string, a: seq<string>, b: seq<string>, e: string, a': seq<string>, b': seq<string>)
    requires [d] + a + b == [e] + a' + b'
    ensures d == e && a + b == a' + b'
  {
    var (x, y) := ([d] + a + b, [e] + a' + b');
    assert x[0] == d && y[0] == e && x[1..] == a + b && y[1..] == a' + b';
  }

  // ------------------------------------------------------------ what is declared

  predicate NotDep(s: string) { !(Has(s, 0, 'd') && Has(s, 9, 'd')) }
  predicate NotLoad(s: string) { !(Has(s, 0, 'd') && Has(s, 9, 'l')) }
  predicate IsOutput(s: string) { Has(s, 0, 's') && Has(s, 13, 'o') }

  ghost predicate All(mark: string -> bool, xs: seq<string>) {
    forall i | 0 <= i < |xs| :: mark(xs[i])
  }

  ghost predicate No(mark: string -> bool, xs: seq<string>) {
    forall i | 0 <= i < |xs| :: !mark(xs[i])
  }

  lemma AllMore(mark: string -> bool, xs: seq<string>, ys: seq<string>)
    ensures All(mark, xs) && All(mark, ys) ==> All(mark, xs + ys)
    ensures No(mark, xs) && No(mark, ys) ==> No(mark, xs + ys)
  {}

  /** Neither a declared dependency's, nor a declared load's, nor an output's. */
  ghost predicate Others(xs: seq<string>) {
    All(NotDep, xs) && All(NotLoad, xs) && No(IsOutput, xs)
  }

  lemma OthersMore(xs: seq<string>, ys: seq<string>)
    requires Others(xs) && Others(ys)
    ensures Others(xs + ys)
  {
    hide All, No;
    AllMore(NotDep, xs, ys);
    AllMore(NotLoad, xs, ys);
    AllMore(IsOutput, xs, ys);
  }

  lemma {:induction false} InputsAreOther(inputs: seq<Input>)
    ensures Others(InputLines(inputs))
  {
    if inputs != [] {
      hide DeclLine, FileLines, Others;
      InputsAreOther(inputs[1..]);
      FilesAreOther(inputs[0]);
      DeclIsOther(inputs[0]);
      OthersMore([DeclLine(inputs[0])], FileLines(inputs[0]));
      OthersMore([DeclLine(inputs[0])] + FileLines(inputs[0]), InputLines(inputs[1..]));
    }
  }

  lemma DeclIsOther(input: Input)
    ensures Others([DeclLine(input)])
  {}

  lemma FilesAreOther(input: Input)
    ensures Others(FileLines(input))
  {
    var tag := InputTag(input) + "=";
    assert |tag| > 0 && (if input.manifest then tag[0] == 'e' else |tag| > 13 && tag[0] == 's' && tag[13] == 'd');
    hide InputTag, FileTexts, Prefixed, Has, Others;
    PrefixedHas(tag, FileTexts(input.files), 0);
    if !input.manifest { PrefixedHas(tag, FileTexts(input.files), 13); }
    OthersByLetter(FileLines(input), input.manifest);
  }

  lemma OthersByLetter(lines: seq<string>, manifest: bool)
    requires forall i | 0 <= i < |lines| :: if manifest then Has(lines[i], 0, 'e') else Has(lines[i], 0, 's') && Has(lines[i], 13, 'd')
    ensures Others(lines)
  {}

  lemma DepsAre(deps: seq<string>)
    ensures No(NotDep, Prefixed("declared_dep=", deps))
  {
    PrefixedHas("declared_dep=", deps, 0);
    PrefixedHas("declared_dep=", deps, 9);
    hide Prefixed;
  }

  lemma LoadsAre(loads: seq<string>)
    ensures All(NotDep, Prefixed("declared_load=", loads)) && No(NotLoad, Prefixed("declared_load=", loads))
  {
    PrefixedHas("declared_load=", loads, 0);
    PrefixedHas("declared_load=", loads, 9);
    hide Prefixed;
  }

  lemma OutputsAre(outputs: seq<string>)
    ensures var lines := Prefixed("source_extra_output=", outputs); All(NotDep, lines) && All(NotLoad, lines) && All(IsOutput, lines)
  {
    PrefixedHas("source_extra_output=", outputs, 0);
    PrefixedHas("source_extra_output=", outputs, 13);
    hide Prefixed;
  }

  /** The declared lines give back what was declared. */
  lemma DeclaredSays(f: Facts, g: Facts)
    requires Declared(f) == Declared(g) && CleanInputs(f.inputs) && CleanInputs(g.inputs)
    ensures f.declaredDeps == g.declaredDeps && f.declaredLoads == g.declaredLoads && f.extraOutputs == g.extraOutputs
    ensures SameInputs(f.inputs, g.inputs)
  {
    hide Prefixed, InputLines, SameInputs, CleanInputs;
    Marked(f);
    Marked(g);
    Reassociate(Prefixed("declared_dep=", f.declaredDeps), Prefixed("declared_load=", f.declaredLoads),
                InputLines(f.inputs), Prefixed("source_extra_output=", f.extraOutputs));
    Reassociate(Prefixed("declared_dep=", g.declaredDeps), Prefixed("declared_load=", g.declaredLoads),
                InputLines(g.inputs), Prefixed("source_extra_output=", g.extraOutputs));
    LinesApart(Prefixed("declared_dep=", f.declaredDeps), Prefixed("declared_load=", f.declaredLoads),
               InputLines(f.inputs), Prefixed("source_extra_output=", f.extraOutputs),
               Prefixed("declared_dep=", g.declaredDeps), Prefixed("declared_load=", g.declaredLoads),
               InputLines(g.inputs), Prefixed("source_extra_output=", g.extraOutputs));
    PrefixedInjective("declared_dep=", f.declaredDeps, g.declaredDeps);
    PrefixedInjective("declared_load=", f.declaredLoads, g.declaredLoads);
    PrefixedInjective("source_extra_output=", f.extraOutputs, g.extraOutputs);
    InputLinesSay(f.inputs, g.inputs);
  }

  lemma Reassociate(d: seq<string>, l: seq<string>, i: seq<string>, o: seq<string>)
    ensures d + l + i + o == d + (l + (i + o))
  {}

  /** Lines in four runs, told apart by their marks. */
  ghost predicate InRuns(d: seq<string>, l: seq<string>, i: seq<string>, o: seq<string>) {
    && No(NotDep, d) && All(NotDep, l) && No(NotLoad, l) && Others(i)
    && All(NotDep, o) && All(NotLoad, o) && All(IsOutput, o)
  }

  lemma Marked(f: Facts)
    ensures InRuns(Prefixed("declared_dep=", f.declaredDeps), Prefixed("declared_load=", f.declaredLoads),
                   InputLines(f.inputs), Prefixed("source_extra_output=", f.extraOutputs))
  {
    hide All, No, Prefixed, InputLines, Others;
    DepsAre(f.declaredDeps);
    LoadsAre(f.declaredLoads);
    InputsAreOther(f.inputs);
    OutputsAre(f.extraOutputs);
  }

  lemma LinesApart(d: seq<string>, l: seq<string>, i: seq<string>, o: seq<string>, d': seq<string>, l': seq<string>, i': seq<string>, o': seq<string>)
    requires d + (l + (i + o)) == d' + (l' + (i' + o')) && InRuns(d, l, i, o) && InRuns(d', l', i', o')
    ensures d == d' && l == l' && i == i' && o == o'
  {
    hide NotDep, NotLoad, IsOutput;
    SplitAtMark(NotDep, d, l + (i + o), d', l' + (i' + o'));
    SplitAtMark(NotLoad, l, i + o, l', i' + o');
    SplitAtMark(IsOutput, i, o, i', o');
  }

  /** With one configuration line each, equal lines before the dependencies' are of nodes
      declared alike. */
  lemma HeadSaysDeclared(f: Facts, g: Facts, t: string, u: string, x: string, y: string)
    requires Head(f, t, [x]) == Head(g, u, [y])
    ensures x == y && Declared(f) == Declared(g)
  {
    HeadSaysPolicy(f, g, t, u, [x], [y]);
    assert Policy(f) == Policy(g);
    hide Policy, Declared;
    var (a, b) := (Head(f, t, [x]), Head(g, u, [y]));
    var k := 7 + |Policy(f)|;
    assert a[k] == x && b[k] == y && a[k + 1..] == Declared(f) && b[k + 1..] == Declared(g);
  }

  lemma ExternalTextsSay(f: Facts, g: Facts)
    requires ExternalTexts(f) == ExternalTexts(g)
    ensures f.externalTheories == g.externalTheories && f.externalLibs == g.externalLibs
  {
    var mark := (s: string) => "HOLLIB:" <= s;
    var (a, b, c, d) := (Prefixed("HOL:", f.externalTheories), Prefixed("HOLLIB:", f.externalLibs),
                         Prefixed("HOL:", g.externalTheories), Prefixed("HOLLIB:", g.externalLibs));
    assert forall i | 0 <= i < |a| :: a[i][3] == ':';
    assert forall i | 0 <= i < |c| :: c[i][3] == ':';
    SplitAtMark(mark, a, b, c, d);
    PrefixedInjective("HOL:", f.externalTheories, g.externalTheories);
    PrefixedInjective("HOLLIB:", f.externalLibs, g.externalLibs);
  }

  // ------------------------------------------------------------ what a key says

  /** Equal in all their facts, but for the order the files of an input were found in. */
  ghost predicate SameFacts(f: Facts, g: Facts) {
    f == g.(inputs := f.inputs) && SameInputs(f.inputs, g.inputs)
  }

  /** Equal keys, in any two plans and whatever their external objects are called, are of
      nodes with the same extra inputs, by name and by contents, and the same declarations. */
  lemma KeySaysInputs(hash: Hash, texts: set<string>, plan: Plan, keys: Keys, n: Key, v: string, plan': Plan, keys': Keys, m: Key, v': string)
    requires Digest(hash, texts) && Computed(hash, texts, plan, keys) && Computed(hash, texts, plan', keys')
    requires n in plan.selected && m in plan'.selected && keys[n] == keys'[m]
    requires plan.configLines[n] == PolicyConfigLines(v) && plan'.configLines[m] == PolicyConfigLines(v')
    ensures var (f, g) := (plan.facts[n], plan'.facts[m]);
            && v == v' && SameInputs(f.inputs, g.inputs)
            && f.declaredDeps == g.declaredDeps && f.declaredLoads == g.declaredLoads && f.extraOutputs == g.extraOutputs
  {
    var (f, g) := (plan.facts[n], plan'.facts[m]);
    HeadCommits(hash, texts, plan, keys, n, plan', keys', m);
    AreClean(plan, n);
    AreClean(plan', m);
    hide Digest, Computed, Head, Declared, CleanInputs;
    HeadSaysDeclared(f, g, plan.toolchainKey, plan'.toolchainKey, PolicyConfigLines(v)[0], PolicyConfigLines(v')[0]);
    DeclaredSays(f, g);
    AfterPrefix("theory_manifest_version=", v, v');
  }

  lemma AreClean(plan: Plan, n: Key)
    requires WellFormed(plan) && n in plan.selected
    ensures n in plan.facts && CleanInputs(plan.facts[n].inputs)
  {}

  /** And of nodes that were resolved, equal keys say everything. */
  lemma KeySaysFacts(hash: Hash, texts: set<string>, found: string -> set<string>, plan: Plan, keys: Keys, n: Key, v: string, plan': Plan, keys': Keys, m: Key, v': string)
    requires Alike(hash, texts, found, plan, keys, n, plan', keys', m)
    requires plan.configLines[n] == PolicyConfigLines(v) && plan'.configLines[m] == PolicyConfigLines(v')
    ensures plan.toolchainKey == plan'.toolchainKey && v == v' && SameFacts(plan.facts[n], plan'.facts[m])
    ensures Lookup(keys, DirectDeps(plan, n)) == Lookup(keys', DirectDeps(plan', m))
  {
    hide Digest, Computed, Resolved, Head, ActionLines, ExternalTexts, SameInputs, DirectDeps;
    KeyCommits(hash, texts, found, plan, keys, n, plan', keys', m);
    KeySaysInputs(hash, texts, plan, keys, n, v, plan', keys', m, v');
    KeySaysNode(hash, texts, plan, keys, n, plan', keys', m);
    ExternalTextsSay(plan.facts[n], plan'.facts[m]);
  }

  /** The text an extra-inputs digest is of. */
  function ExtraText(f: Facts): string {
    JoinLines(["holbuild-extra-inputs-v1"] + InputLines(f.inputs))
  }

  lemma TitleIsOneLine()
    ensures OneLine("holbuild-extra-inputs-v1")
  {}

  /** Equal extra-inputs digests are of the same inputs with the same contents, or of none. */
  lemma ExtraInputsKeySays(hash: Hash, texts: set<string>, f: Facts, g: Facts)
    requires Digest(hash, texts) && ExtraText(f) in texts && ExtraText(g) in texts && CleanInputs(f.inputs) && CleanInputs(g.inputs)
    requires ExtraInputsKey(hash, f) == ExtraInputsKey(hash, g)
    ensures SameInputs(f.inputs, g.inputs)
  {
    if f.inputs != [] {
      var (x, y) := (["holbuild-extra-inputs-v1"] + InputLines(f.inputs), ["holbuild-extra-inputs-v1"] + InputLines(g.inputs));
      InputLinesClean(f.inputs);
      InputLinesClean(g.inputs);
      assert ExtraText(f) == ExtraText(g);
      TitleIsOneLine();
      hide JoinLines, InputLines, OneLine;
      JoinLinesInjective(x, y);
      assert x[1..] == InputLines(f.inputs) && y[1..] == InputLines(g.inputs);
      InputLinesSay(f.inputs, g.inputs);
    }
  }
}
