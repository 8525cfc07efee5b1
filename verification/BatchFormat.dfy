/** The batch a client submits, parsed: what an accepted text is guaranteed to be. */
module BatchFormat {
  import opened Wrappers
  import Text
  import opened Dag
  import opened CoordinatorTables

  datatype BatchAction = BatchAction(inputKey: Key, acKey: string, spec: string, theory: string)

  datatype Parsed = Parsed(actions: seq<BatchAction>, edges: seq<Edge>)

  datatype Error =
    | BadHeader
    | DuplicateAction(key: Key)
    | BadField(value: string)
    | BadLine(line: string)
    | BadEdge(edge: Edge)
    | DuplicateEdge
    | CyclicEdges

  datatype Outcome = Accepted(batch: Parsed) | Refused(error: Error)

  /** `\s` of a string pattern: white space as Unicode has it. */
  predicate IsWhite(c: char) {
    || '\t' <= c <= '\r' || '\U{1C}' <= c <= ' ' || c == '\U{85}' || c == '\U{A0}' || c == '\U{1680}'
    || '\U{2000}' <= c <= '\U{200A}' || c == '\U{2028}' || c == '\U{2029}' || c == '\U{202F}' || c == '\U{205F}' || c == '\U{3000}'
  }

  function UpToColon(s: string): (i: nat)
    ensures i <= |s| && (i < |s| ==> s[i] == ':') && forall j | 0 <= j < i :: s[j] != ':'
  {
    if s == [] || s[0] == ':' then 0 else 1 + UpToColon(s[1..])
  }

  /** `[^\s:]+:\S+` */
  predicate IsTheory(s: string) {
    var i := UpToColon(s);
    0 < i < |s| - 1 && forall c <- s :: !IsWhite(c)
  }

  /** `line.split(" ")` */
  function Split(line: string, word: string): seq<string> {
    if line == [] then [word]
    else if line[0] == ' ' then [word] + Split(line[1..], [])
    else Split(line[1..], word + [line[0]])
  }

  datatype Line =
    | Blank
    | ActionLine(action: BatchAction)
    | EdgeLine(edge: Edge)
    | Malformed(error: Error)

  function FieldError(a: BatchAction): Option<Error> {
    if !Text.IsSha(a.inputKey.hex) then Some(BadField(a.inputKey.hex))
    else if !Text.IsSha(a.acKey) then Some(BadField(a.acKey))
    else if !Text.IsSha(a.spec) then Some(BadField(a.spec))
    else if !IsTheory(a.theory) then Some(BadField(a.theory))
    else None
  }

  function ParseLine(line: string): Line {
    var words := Split(line, []);
    if line == [] then Blank
    else if |words| == 5 && words[0] == "action" then ActionLine(BatchAction(Key(words[1]), words[2], words[3], words[4]))
    else if |words| == 3 && words[0] == "edge" then EdgeLine(Edge(Key(words[1]), Key(words[2])))
    else Malformed(BadLine(line))
  }

  function ActionsOf(lines: seq<string>): seq<BatchAction> {
    if lines == [] then []
    else ActionsOf(lines[..|lines| - 1]) + (match ParseLine(lines[|lines| - 1]) case ActionLine(a) => [a] case _ => [])
  }

  function EdgesOf(lines: seq<string>): seq<Edge> {
    if lines == [] then []
    else EdgesOf(lines[..|lines| - 1]) + (match ParseLine(lines[|lines| - 1]) case EdgeLine(e) => [e] case _ => [])
  }

  function KeysOf(actions: seq<BatchAction>): set<Key> {
    set a | a in actions :: a.inputKey
  }

  ghost predicate DistinctKeys(actions: seq<BatchAction>) {
    forall i, j | 0 <= i < j < |actions| :: actions[i].inputKey != actions[j].inputKey
  }

  ghost predicate DistinctEdges(edges: seq<Edge>) {
    forall i, j | 0 <= i < j < |edges| :: edges[i] != edges[j]
  }

  predicate EdgeJoins(e: Edge, keys: set<Key>) {
    e.child in keys && e.parent in keys && e.child != e.parent
  }

  ghost predicate NoneMalformed(lines: seq<string>) {
    forall line <- lines :: !ParseLine(line).Malformed?
  }

  ghost predicate FieldsGood(actions: seq<BatchAction>) {
    forall a <- actions :: FieldError(a) == None
  }

  ghost predicate LinesGood(lines: seq<string>) {
    NoneMalformed(lines) && FieldsGood(ActionsOf(lines)) && DistinctKeys(ActionsOf(lines))
  }

  /** What a batch must be to be accepted. */
  ghost predicate Acceptable(lines: seq<string>) {
    && lines != [] && lines[0] == "holbuild-action-batch-v1"
    && LinesGood(lines[1..])
    && (forall e <- EdgesOf(lines[1..]) :: EdgeJoins(e, KeysOf(ActionsOf(lines[1..]))))
    && DistinctEdges(EdgesOf(lines[1..]))
    && Acyclic(set e | e in EdgesOf(lines[1..]))
  }

  // ------------------------------------------------------------ what a line says

  /** Words with one space between. */
  function Joined(words: seq<string>): string {
    if words == [] then "" else if |words| == 1 then words[0] else words[0] + " " + Joined(words[1..])
  }

  ghost predicate NoSpaces(words: seq<string>) {
    forall w <- words :: ' ' !in w
  }

  lemma {:induction false} SplitJoins(line: string, word: string)
    requires ' ' !in word
    ensures Split(line, word) != [] && NoSpaces(Split(line, word)) && Joined(Split(line, word)) == word + line
  {
    if line != [] {
      if line[0] == ' ' {
        SplitJoins(line[1..], []);
        var rest := Split(line[1..], []);
        assert ([word] + rest)[1..] == rest;
        assert word + line == word + " " + line[1..];
      } else {
        SplitJoins(line[1..], word + [line[0]]);
        assert word + line == word + [line[0]] + line[1..];
      }
    }
  }

  lemma {:induction false} JoinSplits(word: string, rest: seq<string>, started: string)
    requires NoSpaces([word] + rest)
    ensures Split(Joined([word] + rest), started) == [started + word] + rest
    decreases |rest|, |word|
  {
    var words := [word] + rest;
    assert words[0] == word && words[1..] == rest;
    assert word in words;
    if word != [] {
      var shorter := [word[1..]] + rest;
      assert Joined(words) == [word[0]] + Joined(shorter) by { assert shorter[1..] == rest; }
      assert forall w <- shorter :: ' ' !in w by { assert forall w <- rest :: w in words; }
      JoinSplits(word[1..], rest, started + [word[0]]);
      assert started + word == started + [word[0]] + word[1..];
    } else if rest == [] {
      assert started + word == started;
    } else {
      assert Joined(words) == " " + Joined(rest);
      assert rest == [rest[0]] + rest[1..];
      assert forall w <- rest :: w in words;
      JoinSplits(rest[0], rest[1..], []);
      assert started + word == started && [] + rest[0] == rest[0];
    }
  }

  lemma WordsSay(line: string, words: seq<string>)
    requires words != []
    ensures Split(line, []) == words <==> line == Joined(words) && NoSpaces(words)
  {
    hide Split, Joined, NoSpaces;
    SplitJoins(line, []);
    assert [] + line == line;
    if line == Joined(words) && NoSpaces(words) {
      var (first, rest) := (words[0], words[1..]);
      assert words == [first] + rest;
      JoinSplits(first, rest, []);
      assert [] + first == first;
    }
  }

  /** An edge line is `edge`, the child and the parent, and an action line `action` and
      its four fields, with one space between; and every other line is neither. */
  lemma LineSays(line: string, e: Edge, a: BatchAction)
    ensures ParseLine(line) == EdgeLine(e) <==>
              line == Joined(["edge", e.child.hex, e.parent.hex]) && NoSpaces([e.child.hex, e.parent.hex])
    ensures ParseLine(line) == ActionLine(a) <==>
              line == Joined(["action", a.inputKey.hex, a.acKey, a.spec, a.theory]) && NoSpaces([a.inputKey.hex, a.acKey, a.spec, a.theory])
  {
    assert line == [] ==> Split(line, []) == [[]];
    WordsSay(line, ["edge", e.child.hex, e.parent.hex]);
    WordsSay(line, ["action", a.inputKey.hex, a.acKey, a.spec, a.theory]);
    hide Split, Joined;
    var words := Split(line, []);
    assert |words| == 3 ==> words == [words[0], words[1], words[2]];
    assert |words| == 5 ==> words == [words[0], words[1], words[2], words[3], words[4]];
  }

  ghost predicate SpellsAction(line: string, a: BatchAction) {
    line == Joined(["action", a.inputKey.hex, a.acKey, a.spec, a.theory]) && NoSpaces([a.inputKey.hex, a.acKey, a.spec, a.theory])
  }

  ghost predicate SpellsEdge(line: string, e: Edge) {
    line == Joined(["edge", e.child.hex, e.parent.hex]) && NoSpaces([e.child.hex, e.parent.hex])
  }

  /** A line is blank only if it is empty, and malformed if it is none of the three. */
  lemma OtherLines(line: string)
    ensures ParseLine(line).Blank? <==> line == ""
    ensures ParseLine(line).Malformed? <==> line != "" && (forall a :: !SpellsAction(line, a)) && (forall e :: !SpellsEdge(line, e))
  {
    forall e
      ensures ParseLine(line) == EdgeLine(e) <==> SpellsEdge(line, e)
    {
      LineSays(line, e, BatchAction(Key(""), "", "", ""));
    }
    forall a
      ensures ParseLine(line) == ActionLine(a) <==> SpellsAction(line, a)
    {
      LineSays(line, Edge(Key(""), Key("")), a);
    }
    hide Split, SpellsAction, SpellsEdge;
    match ParseLine(line)
    case ActionLine(a) => assert SpellsAction(line, a);
    case EdgeLine(e) => assert SpellsEdge(line, e);
    case _ =>
  }

  predicate IsHexDigit(c: char) {
    c in "0123456789abcdef"
  }

  /** An action's fields have their form: three digests of 64 lower-case hex digits, and a
      package, a colon and a name, without white space. */
  lemma FieldsSay(a: BatchAction)
    ensures FieldError(a) == None <==>
              && (forall s <- [a.inputKey.hex, a.acKey, a.spec] :: |s| == 64 && forall c <- s :: IsHexDigit(c))
              && (forall c <- a.theory :: !IsWhite(c))
              && exists package, name :: a.theory == package + ":" + name && package != "" && name != "" && ':' !in package
  {
    HexDigits(a.inputKey.hex);
    HexDigits(a.acKey);
    HexDigits(a.spec);
    TheorySays(a.theory);
    hide Text.IsSha, IsTheory, IsHexDigit, IsWhite;
  }

  lemma HexDigits(s: string)
    ensures Text.IsSha(s) <==> |s| == 64 && forall c <- s :: IsHexDigit(c)
  {
    forall c: char
      ensures IsHexDigit(c) <==> '0' <= c <= '9' || 'a' <= c <= 'f'
    {
      var digits := "0123456789abcdef";
      assert '0' <= c <= '9' ==> digits[c as int - '0' as int] == c;
      assert 'a' <= c <= 'f' ==> digits[10 + (c as int - 'a' as int)] == c;
    }
  }

  lemma TheorySays(s: string)
    ensures IsTheory(s) <==>
              (forall c <- s :: !IsWhite(c))
              && exists package, name :: s == package + ":" + name && package != "" && name != "" && ':' !in package
  {
    hide IsWhite;
    var i := UpToColon(s);
    if 0 < i < |s| - 1 {
      assert s == s[..i] + ":" + s[i + 1..];
    }
    if package, name :| s == package + ":" + name && package != "" && name != "" && ':' !in package {
      assert s[|package|] == ':' && forall j | 0 <= j < |package| :: s[j] == package[j];
      assert i == |package|;
    }
  }

  lemma {:induction false} LinesGive(lines: seq<string>, a: BatchAction, e: Edge)
    ensures a in ActionsOf(lines) <==> exists line <- lines :: ParseLine(line) == ActionLine(a)
    ensures e in EdgesOf(lines) <==> exists line <- lines :: ParseLine(line) == EdgeLine(e)
    decreases |lines|
  {
    if lines != [] {
      var init, last := lines[..|lines| - 1], lines[|lines| - 1];
      LinesGive(init, a, e);
      assert forall line :: line in lines <==> line in init || line == last;
      hide ParseLine;
    }
  }

  /** An accepted batch has exactly the actions and the edges its lines spell. */
  lemma AcceptedSays(lines: seq<string>, a: BatchAction, e: Edge)
    requires Acceptable(lines)
    ensures a in ActionsOf(lines[1..]) <==> exists line <- lines[1..] :: SpellsAction(line, a)
    ensures e in EdgesOf(lines[1..]) <==> exists line <- lines[1..] :: SpellsEdge(line, e)
  {
    LinesGive(lines[1..], a, e);
    forall line { LineSays(line, e, a); }
    hide ParseLine, Joined, NoSpaces, ActionsOf, EdgesOf, Acceptable;
  }

  // ------------------------------------------------------------ the parser

  lemma OneLineMore(lines: seq<string>, line: string)
    ensures ActionsOf(lines + [line]) == ActionsOf(lines) + (match ParseLine(line) case ActionLine(a) => [a] case _ => [])
    ensures EdgesOf(lines + [line]) == EdgesOf(lines) + (match ParseLine(line) case EdgeLine(e) => [e] case _ => [])
  {
    assert (lines + [line])[..|lines|] == lines;
  }

  /** A line not good, or an action's key again, spoils every text it is in. */
  lemma {:induction false} GoodPrefix(lines: seq<string>, n: nat)
    requires n <= |lines| && LinesGood(lines)
    ensures LinesGood(lines[..n])
    decreases |lines|
  {
    if n < |lines| {
      var init := lines[..|lines| - 1];
      assert lines == init + [lines[|lines| - 1]];
      OneLineMore(init, lines[|lines| - 1]);
      assert forall i | 0 <= i < |ActionsOf(init)| :: ActionsOf(lines)[i] == ActionsOf(init)[i];
      assert forall line <- init :: line in lines;
      GoodPrefix(init, n);
      assert init[..n] == lines[..n];
    } else {
      assert lines[..n] == lines;
    }
  }

  lemma BadPrefix(lines: seq<string>, n: nat)
    requires n <= |lines| && !LinesGood(lines[..n])
    ensures !LinesGood(lines)
  {
    if LinesGood(lines) { GoodPrefix(lines, n); }
  }

  /** One line more: what would make the whole bad. */
  lemma NextLine(lines: seq<string>, line: string)
    requires LinesGood(lines)
    ensures LinesGood(lines + [line]) <==>
            match ParseLine(line)
            case Malformed(_) => false
            case ActionLine(a) => a.inputKey !in KeysOf(ActionsOf(lines)) && FieldError(a) == None
            case _ => true
  {
    OneLineMore(lines, line);
    assert NoneMalformed(lines + [line]) <==> NoneMalformed(lines) && !ParseLine(line).Malformed? by {
      assert line in lines + [line] && forall l <- lines :: l in lines + [line];
    }
    hide NoneMalformed, FieldsGood, DistinctKeys, KeysOf, FieldError;
    match ParseLine(line)
    case ActionLine(a) => NextAction(ActionsOf(lines), a);
    case _ =>
  }

  lemma NextAction(actions: seq<BatchAction>, a: BatchAction)
    requires FieldsGood(actions) && DistinctKeys(actions)
    ensures FieldsGood(actions + [a]) <==> FieldError(a) == None
    ensures DistinctKeys(actions + [a]) <==> a.inputKey !in KeysOf(actions)
  {
    hide FieldError;
    assert a in actions + [a];
    if a.inputKey in KeysOf(actions) { Repeated(actions, a); }
    assert forall i | 0 <= i < |actions| :: actions[i].inputKey in KeysOf(actions) && (actions + [a])[i] == actions[i];
  }

  /** The lines: their actions and edges, unless one is bad. */
  method ParseLines(lines: seq<string>) returns (r: Outcome)
    ensures match r
            case Accepted(batch) => LinesGood(lines) && batch == Parsed(ActionsOf(lines), EdgesOf(lines))
            case Refused(_) => !LinesGood(lines)
  {
    hide LinesGood, ParseLine, FieldError, ActionsOf, EdgesOf;
    var batch := Parsed([], []);
    var keys: set<Key> := {};
    var i := 0;
    NoLines();
    assert lines[..0] == [];
    while i < |lines|
      invariant 0 <= i <= |lines|
      invariant LinesGood(lines[..i]) && batch == Parsed(ActionsOf(lines[..i]), EdgesOf(lines[..i]))
      invariant keys == KeysOf(batch.actions)
    {
      var line := lines[i];
      assert lines[..i + 1] == lines[..i] + [line];
      OneLineMore(lines[..i], line);
      NextLine(lines[..i], line);
      match ParseLine(line) {
        case Malformed(error) =>
          BadPrefix(lines, i + 1);
          return Refused(error);
        case Blank =>
        case EdgeLine(e) => batch := batch.(edges := batch.edges + [e]);
        case ActionLine(a) =>
          if a.inputKey in keys {
            BadPrefix(lines, i + 1);
            return Refused(DuplicateAction(a.inputKey));
          }
          match FieldError(a) {
            case Some(error) =>
              BadPrefix(lines, i + 1);
              return Refused(error);
            case None =>
          }
          batch := batch.(actions := batch.actions + [a]);
          keys := keys + {a.inputKey};
      }
      i := i + 1;
    }
    assert lines[..i] == lines;
    r := Accepted(batch);
  }

  lemma NoLines()
    ensures LinesGood([]) && ActionsOf([]) == [] && EdgesOf([]) == []
  {}

  lemma Repeated(actions: seq<BatchAction>, a: BatchAction)
    requires a.inputKey in KeysOf(actions)
    ensures !DistinctKeys(actions + [a])
  {
    var b :| b in actions && b.inputKey == a.inputKey;
    var i :| 0 <= i < |actions| && actions[i] == b;
    var more := actions + [a];
    assert more[i].inputKey == more[|actions|].inputKey;
  }

  method CheckEdges(edges: seq<Edge>, keys: set<Key>) returns (bad: Option<Edge>)
    ensures match bad
            case Some(e) => e in edges && !EdgeJoins(e, keys)
            case None => forall e <- edges :: EdgeJoins(e, keys)
  {
    for i := 0 to |edges|
      invariant forall j | 0 <= j < i :: EdgeJoins(edges[j], keys)
    {
      if !EdgeJoins(edges[i], keys) { return Some(edges[i]); }
    }
    return None;
  }

  lemma {:induction false} SetOfDistinct(edges: seq<Edge>)
    ensures |set e | e in edges| <= |edges|
    ensures |set e | e in edges| == |edges| <==> DistinctEdges(edges)
  {
    if edges != [] {
      var init, last := edges[..|edges| - 1], edges[|edges| - 1];
      SetOfDistinct(init);
      assert edges == init + [last];
      assert (set e | e in edges) == (set e | e in init) + {last};
      if DistinctEdges(init) && last !in init {
        assert forall i | 0 <= i < |init| :: init[i] != last;
      }
    }
  }

  /** `parse_batch` */
  method ParseBatch(lines: seq<string>) returns (r: Outcome)
    ensures match r
            case Accepted(batch) => Acceptable(lines) && batch == Parsed(ActionsOf(lines[1..]), EdgesOf(lines[1..]))
            case Refused(_) => !Acceptable(lines)
  {
    if lines == [] || lines[0] != "holbuild-action-batch-v1" { return Refused(BadHeader); }
    r := ParseLines(lines[1..]);
    match r {
      case Refused(_) => return;
      case Accepted(batch) =>
        var keys := KeysOf(batch.actions);
        var bad := CheckEdges(batch.edges, keys);
        match bad {
          case Some(e) => return Refused(BadEdge(e));
          case None =>
        }
        var edges := set e | e in batch.edges;
        SetOfDistinct(batch.edges);
        if |edges| != |batch.edges| { return Refused(DuplicateEdge); }
        var sorted := DagPriorities(keys, edges);
        if sorted.CycleError? { return Refused(CyclicEdges); }
    }
  }

  /** The actions `submit` makes of an accepted batch, whatever tiers it gives them. */
  function NewActions(actions: seq<BatchAction>, high: BatchAction -> bool): (r: seq<NewAction>)
    ensures |r| == |actions|
    ensures forall i | 0 <= i < |actions| :: r[i] == NewAction(actions[i].inputKey, actions[i].acKey, actions[i].spec, high(actions[i]))
  {
    if actions == [] then []
    else [NewAction(actions[0].inputKey, actions[0].acKey, actions[0].spec, high(actions[0]))] + NewActions(actions[1..], high)
  }

  /** So every accepted batch is one `submit` may store: keys once each, and edges
      without a cycle between its own actions. */
  lemma AcceptedIsSubmittable(lines: seq<string>, high: BatchAction -> bool)
    requires Acceptable(lines)
    ensures Submittable(NewActions(ActionsOf(lines[1..]), high), set e | e in EdgesOf(lines[1..]))
  {
    var actions := ActionsOf(lines[1..]);
    hide NewActions, ActionsOf, EdgesOf, Acyclic, NoneMalformed, FieldsGood;
    SameKeys(actions, high);
  }

  lemma SameKeys(actions: seq<BatchAction>, high: BatchAction -> bool)
    ensures (set n | n in NewActions(actions, high) :: n.key) == KeysOf(actions)
    ensures |NewActions(actions, high)| == |actions|
    ensures forall i | 0 <= i < |actions| :: NewActions(actions, high)[i].key == actions[i].inputKey
  {
    var news := NewActions(actions, high);
    var keys := set n | n in news :: n.key;
    forall a | a in actions
      ensures a.inputKey in keys
    {
      var i :| 0 <= i < |actions| && actions[i] == a;
      assert news[i] in news && news[i].key == a.inputKey;
    }
    forall n | n in news
      ensures n.key in KeysOf(actions)
    {
      var i :| 0 <= i < |news| && news[i] == n;
      assert actions[i] in actions;
    }
  }
}
