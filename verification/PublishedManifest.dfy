/** The manifest a theory is published with, and which of its blobs the two programs that
    read manifests find in it. */
module PublishedManifest {
  import opened Wrappers
  import opened Text
  import opened Manifest

  datatype Theory = Theory(
    inputKey: string,
    proofTimeout: string,
    parents: seq<string>,
    mldeps: seq<string>,
    signature: Hash,
    script: Hash,
    data: Hash,
    trace: Option<Hash>,
    extras: seq<(string, Hash)>)

  function EscapeOne(c: char): string {
    match c
    case '\\' => "\\\\"
    case '\n' => "\\n"
    case '\t' => "\\t"
    case ' ' => "\\s"
    case _ => [c]
  }

  /** `HolbuildAnalysisProtocol.escape` */
  function Escape(s: string): string {
    if s == [] then [] else EscapeOne(s[0]) + Escape(s[1..])
  }

  function BlobLine(role: string, hash: Hash): string {
    "blob " + role + " " + hash
  }

  function ExtraRole(path: string): string {
    "extra:" + Escape(path)
  }

  function Labelled(tag: string, names: seq<string>): (r: seq<string>)
    ensures |r| == |names| && forall i | 0 <= i < |names| :: r[i] == tag + names[i]
  {
    if names == [] then [] else [tag + names[0]] + Labelled(tag, names[1..])
  }

  function ExtraLines(extras: seq<(string, Hash)>): (r: seq<string>)
    ensures |r| == |extras| && forall i | 0 <= i < |extras| :: r[i] == BlobLine(ExtraRole(extras[i].0), extras[i].1)
  {
    if extras == [] then [] else [BlobLine(ExtraRole(extras[0].0), extras[0].1)] + ExtraLines(extras[1..])
  }

  function Opening(t: Theory): seq<string> {
    ["holbuild-cache-action-v4",
     "input_key=" + t.inputKey,
     "kind=theory",
     "proof-timeout=" + t.proofTimeout,
     "load-metadata-v1"] +
    Labelled("parent ", t.parents) + Labelled("mldep ", t.mldeps)
  }

  function BlobLines(t: Theory): seq<string> {
    [BlobLine("sig", t.signature), BlobLine("sml", t.script), BlobLine("dat", t.data)] +
    TraceLines(t) + ExtraLines(t.extras)
  }

  function TraceLines(t: Theory): seq<string> {
    match t.trace case Some(hash) => [BlobLine("trace", hash)] case None => []
  }

  /** `cache_manifest_text` */
  function ManifestText(t: Theory): string {
    JoinLines(Opening(t) + BlobLines(t))
  }

  ghost predicate Clean(t: Theory) {
    && OneLine(t.inputKey) && OneLine(t.proofTimeout) && AllOneLine(t.parents) && AllOneLine(t.mldeps)
    && IsSha(t.signature) && IsSha(t.script) && IsSha(t.data)
    && (match t.trace case Some(hash) => IsSha(hash) case None => true)
    && forall e <- t.extras :: IsSha(e.1)
  }

  /** White space that escaping leaves: vertical tabs, form feeds and carriage returns. */
  predicate IsBreak(c: char) {
    c == '\U{0B}' || c == '\U{0C}' || c == '\r'
  }

  /** The path holds such a break before something else. */
  ghost predicate Broken(path: string) {
    exists i, j :: 0 <= i < j < |path| && IsBreak(path[i]) && !IsBreak(path[j])
  }

  // ------------------------------------------------------------ escaping

  lemma {:induction false} EscapeConcat(p: string, q: string)
    ensures Escape(p + q) == Escape(p) + Escape(q)
  {
    if p == [] {
      assert p + q == q;
    } else {
      assert (p + q)[1..] == p[1..] + q;
      EscapeConcat(p[1..], q);
    }
  }

  /** Escaped, only breaks are white space. */
  lemma EscapeOneLeaves(c: char)
    ensures EscapeOne(c) != []
    ensures if IsBreak(c) then EscapeOne(c) == [c] && IsSpace(c) else forall d <- EscapeOne(c) :: !IsSpace(d)
  {}

  lemma {:induction false} EscapeBreaks(s: string)
    requires forall c <- s :: IsBreak(c)
    ensures Escape(s) == s && AllAre(IsSpace, s)
  {
    if s != [] {
      EscapeOneLeaves(s[0]);
      hide EscapeOne, IsBreak, IsSpace;
      EscapeBreaks(s[1..]);
      assert s == [s[0]] + s[1..];
    }
  }

  lemma {:induction false} EscapeWord(s: string)
    requires forall c <- s :: !IsBreak(c)
    ensures forall c <- Escape(s) :: !IsSpace(c)
  {
    if s != [] {
      EscapeOneLeaves(s[0]);
      hide EscapeOne, IsBreak, IsSpace;
      EscapeWord(s[1..]);
    }
  }

  lemma EscapeSome(s: string, j: nat)
    requires j < |s| && !IsBreak(s[j])
    ensures exists c :: c in Escape(s) && !IsSpace(c)
  {
    EscapeOneLeaves(s[j]);
    hide EscapeOne, IsBreak, IsSpace;
    var (p, q) := (s[..j], s[j..]);
    assert s == p + q && q[0] == s[j];
    EscapeConcat(p, q);
    var c := EscapeOne(s[j])[0];
    assert c in EscapeOne(s[j]) && c in Escape(q);
  }

  // ------------------------------------------------------------ tokens of a line

  lemma {:induction false} TokensApart(a: string, c: char, b: string, token: string)
    requires IsSpace(c)
    ensures Tokens(IsSpace, a + [c] + b, token) == Tokens(IsSpace, a, token) + Tokens(IsSpace, b, [])
    decreases |a|
  {
    var text := a + [c] + b;
    if a == [] {
      assert text[0] == c && text[1..] == b;
    } else {
      assert text[0] == a[0] && text[1..] == a[1..] + [c] + b;
      TokensApart(a[1..], c, b, if IsSpace(a[0]) then [] else token + [a[0]]);
    }
  }

  lemma OneToken(word: string)
    requires IsToken(IsSpace, word)
    ensures Tokens(IsSpace, word, []) == [word]
  {
    assert [] + word == word && word + [] == word;
    TokensPastToken(IsSpace, word, [], []);
  }

  lemma HasToken(text: string)
    requires exists c :: c in text && !IsSpace(c)
    ensures Tokens(IsSpace, text, []) != []
  {
    if Tokens(IsSpace, text, []) == [] { NoTokens(IsSpace, text); }
  }

  lemma BlobIsToken()
    ensures IsToken(IsSpace, "blob")
  {}

  lemma LineTokens(role: string, hash: Hash)
    requires IsToken(IsSpace, hash)
    ensures Tokens(IsSpace, BlobLine(role, hash), []) == ["blob"] + Tokens(IsSpace, role, []) + [hash]
  {
    BlobIsToken();
    hide Tokens, IsToken;
    assert BlobLine(role, hash) == "blob" + [' '] + (role + [' '] + hash);
    TokensApart("blob", ' ', role + [' '] + hash, []);
    TokensApart(role, ' ', hash, []);
    OneToken("blob");
    OneToken(hash);
  }

  /** A blob's line names its hash exactly when its role is one word, and else nothing. */
  lemma LineNames(role: string, hash: Hash, h: Hash)
    requires IsToken(IsSpace, hash) && OneLine(BlobLine(role, hash)) && Tokens(IsSpace, role, []) != []
    ensures NamesBlob(BlobLine(role, hash), h) <==> h == hash && |Tokens(IsSpace, role, [])| == 1
  {
    var line := BlobLine(role, hash);
    LineTokens(role, hash);
    BlobRefIs(line, h);
    assert line[4] == ' ' && !("blob=" <= line);
    assert TrimNewline(line) == line by { assert line[|line| - 1] in line; }
    hide Tokens, NamesBlob, IsToken;
  }

  lemma ExtraTokens(path: string)
    ensures var words := Tokens(IsSpace, ExtraRole(path), []); words != [] && (|words| == 1 <==> !Broken(path))
  {
    if Broken(path) {
      var i, j :| 0 <= i < j < |path| && IsBreak(path[i]) && !IsBreak(path[j]);
      BrokenTokens(path, i, j);
    } else {
      UnbrokenTokens(path);
    }
  }

  lemma LabelHasToken(p: string)
    ensures exists c :: c in "extra:" + p && !IsSpace(c)
  {
    assert ("extra:" + p)[0] == 'e';
    assert 'e' in "extra:" + p && !IsSpace('e');
  }

  lemma BrokenTokens(path: string, i: nat, j: nat)
    requires i < j < |path| && IsBreak(path[i]) && !IsBreak(path[j])
    ensures |Tokens(IsSpace, ExtraRole(path), [])| >= 2
  {
    hide Tokens, IsSpace, IsBreak, EscapeOne;
    var p, q := path[..i], path[i + 1..];
    assert path == p + ([path[i]] + q) && q[j - i - 1] == path[j];
    EscapeAround(p, path[i], q);
    EscapeSome(q, j - i - 1);
    LabelHasToken(Escape(p));
    hide Escape;
    var before := "extra:" + Escape(p);
    assert ExtraRole(path) == before + [path[i]] + Escape(q);
    hide ExtraRole;
    HasToken(before);
    HasToken(Escape(q));
    TokensApart(before, path[i], Escape(q), []);
  }

  lemma EscapeAround(p: string, c: char, q: string)
    requires IsBreak(c)
    ensures Escape(p + ([c] + q)) == Escape(p) + ([c] + Escape(q)) && IsSpace(c)
  {
    EscapeConcat(p, [c] + q);
    EscapeConcat([c], q);
    EscapeOneLeaves(c);
    hide EscapeOne, IsBreak, IsSpace;
    assert [c][1..] == [] && Escape([c]) == [c] + [];
  }

  lemma TrailingBreaks(path: string) returns (k: nat)
    requires !Broken(path)
    ensures k <= |path| && (forall c <- path[..k] :: !IsBreak(c)) && (forall c <- path[k..] :: IsBreak(c))
  {
    k := 0;
    while k < |path| && !IsBreak(path[k])
      invariant k <= |path| && forall i | 0 <= i < k :: !IsBreak(path[i])
    {
      k := k + 1;
    }
    assert forall j | k <= j < |path| :: IsBreak(path[j]);
  }

  lemma LabelledWord(word: string)
    requires forall c <- word :: !IsSpace(c)
    ensures IsToken(IsSpace, "extra:" + word)
  {
    assert forall c <- "extra:" :: !IsSpace(c);
  }

  lemma GapBreaks(gap: string)
    requires AllAre(IsSpace, gap)
    ensures Breaks(IsSpace, gap)
  {
    if gap != [] { assert gap[0] in gap; }
  }

  lemma WordThenGap(word: string, gap: string)
    requires IsToken(IsSpace, word) && AllAre(IsSpace, gap)
    ensures Tokens(IsSpace, word + gap, []) == [word]
  {
    GapBreaks(gap);
    hide Tokens, IsSpace, IsToken, AllAre, Breaks;
    assert [] + word == word && gap + [] == gap;
    TokensPastToken(IsSpace, word, gap, []);
    TokensPastGap(IsSpace, gap, []);
    Nothing();
  }

  lemma UnbrokenTokens(path: string)
    requires !Broken(path)
    ensures |Tokens(IsSpace, ExtraRole(path), [])| == 1
  {
    hide Tokens, IsSpace, IsBreak, EscapeOne, Broken, IsToken, AllAre;
    var k := TrailingBreaks(path);
    var core, tail := path[..k], path[k..];
    assert path == core + tail;
    EscapeConcat(core, tail);
    EscapeWord(core);
    EscapeBreaks(tail);
    LabelledWord(Escape(core));
    hide Escape;
    assert ExtraRole(path) == ("extra:" + Escape(core)) + tail;
    hide ExtraRole;
    WordThenGap("extra:" + Escape(core), tail);
  }

  // ------------------------------------------------------------ what the manifest says

  lemma ShaIsWord(hash: Hash)
    requires IsSha(hash)
    ensures IsToken(IsSpace, hash) && OneLine(hash)
  {}

  lemma {:induction false} EscapeOneLine(s: string)
    ensures OneLine(Escape(s))
  {
    if s != [] {
      EscapeOneLine(s[1..]);
      assert '\n' !in EscapeOne(s[0]);
    }
  }

  lemma RoleTokens(role: string)
    requires IsToken(IsSpace, role)
    ensures |Tokens(IsSpace, role, [])| == 1
  {
    OneToken(role);
  }

  lemma FixedRoles()
    ensures forall role | role in {"sig", "sml", "dat", "trace"} :: IsToken(IsSpace, role) && OneLine(role)
  {}

  /** A line of a blob with its role one word names it and nothing else. */
  lemma FixedLineNames(role: string, hash: Hash, h: Hash)
    requires role in {"sig", "sml", "dat", "trace"} && IsSha(hash)
    ensures OneLine(BlobLine(role, hash)) && (NamesBlob(BlobLine(role, hash), h) <==> h == hash)
  {
    FixedRoles();
    ShaIsWord(hash);
    RoleTokens(role);
    hide NamesBlob, Tokens, IsSpace, IsToken, IsSha;
    LineNames(role, hash, h);
  }

  lemma ExtraLineNames(path: string, hash: Hash, h: Hash)
    requires IsSha(hash)
    ensures OneLine(BlobLine(ExtraRole(path), hash)) && (NamesBlob(BlobLine(ExtraRole(path), hash), h) <==> h == hash && !Broken(path))
  {
    ShaIsWord(hash);
    EscapeOneLine(path);
    ExtraTokens(path);
    hide NamesBlob, Tokens, IsSpace, IsToken, IsSha, Escape, Broken;
    LineNames(ExtraRole(path), hash, h);
  }

  lemma OtherLineNamesNothing(line: string, h: Hash)
    requires line != [] && line[0] != 'b' && !IsSpace(line[0])
    ensures !NamesBlob(line, h)
  {
    forall role
      ensures !Spaced(line, "blob", role, h)
    {
      forall s0, s1, s2, s3
        ensures !(line == SpacedText(s0, "blob", s1, role, s2, h, s3) && AllAre(IsSpace, s0))
      {
        SpacedIs(s0, "blob", s1, role, s2, h, s3);
        var rest := "blob" + (s1 + (role + (s2 + (h + s3))));
        assert (s0 + rest)[0] == if s0 == [] then 'b' else s0[0];
      }
    }
    forall rest
      ensures line != "blob=" + h + rest
    {
      assert ("blob=" + h + rest)[0] == 'b';
    }
  }

  lemma LabelledLines(tag: string, names: seq<string>, h: Hash)
    requires tag != [] && tag[0] != 'b' && !IsSpace(tag[0]) && OneLine(tag) && AllOneLine(names)
    ensures forall line <- Labelled(tag, names) :: OneLine(line) && line != [] && !NamesBlob(line, h)
  {
    forall line <- Labelled(tag, names)
      ensures OneLine(line) && line != [] && !NamesBlob(line, h)
    {
      var i :| 0 <= i < |names| && Labelled(tag, names)[i] == line;
      assert names[i] in names && line == tag + names[i] && line[0] == tag[0];
      OtherLineNamesNothing(line, h);
    }
  }

  lemma OpeningNamesNothing(t: Theory, h: Hash)
    requires Clean(t)
    ensures forall line <- Opening(t) :: OneLine(line) && line != [] && !NamesBlob(line, h)
  {
    assert OneLine("parent ") && OneLine("mldep ");
    LabelledLines("parent ", t.parents, h);
    LabelledLines("mldep ", t.mldeps, h);
    FixedLines(t, h);
    hide Labelled, NamesBlob, OneLine;
  }

  lemma FixedLines(t: Theory, h: Hash)
    requires Clean(t)
    ensures forall line <- ["holbuild-cache-action-v4", "input_key=" + t.inputKey, "kind=theory", "proof-timeout=" + t.proofTimeout, "load-metadata-v1"] ::
              OneLine(line) && line != [] && !NamesBlob(line, h)
  {
    hide NamesBlob;
    OtherLineNamesNothing("holbuild-cache-action-v4", h);
    OtherLineNamesNothing("input_key=" + t.inputKey, h);
    OtherLineNamesNothing("kind=theory", h);
    OtherLineNamesNothing("proof-timeout=" + t.proofTimeout, h);
    OtherLineNamesNothing("load-metadata-v1", h);
  }

  /** The blobs a theory's manifest says. */
  ghost predicate Publishes(t: Theory, h: Hash) {
    h == t.signature || h == t.script || h == t.data || t.trace == Some(h) || NamedExtra(t, h)
  }

  ghost predicate NamedExtra(t: Theory, h: Hash) {
    exists e <- t.extras :: e.1 == h && !Broken(e.0)
  }

  /** Lines of a text, some of which name the blob. */
  ghost predicate Naming(lines: seq<string>, h: Hash, names: bool) {
    && (forall line <- lines :: OneLine(line) && line != [])
    && ((exists line <- lines :: NamesBlob(line, h)) <==> names)
  }

  lemma NamingBoth(a: seq<string>, b: seq<string>, h: Hash, inA: bool, inB: bool)
    requires Naming(a, h, inA) && Naming(b, h, inB)
    ensures Naming(a + b, h, inA || inB)
  {
    hide NamesBlob, OneLine;
    assert forall line :: line in a + b <==> line in a || line in b;
  }

  lemma NamingLine(role: string, hash: Hash, h: Hash)
    requires role in {"sig", "sml", "dat", "trace"} && IsSha(hash)
    ensures Naming([BlobLine(role, hash)], h, h == hash)
  {
    hide NamesBlob, OneLine, IsSha;
    FixedLineNames(role, hash, h);
    assert BlobLine(role, hash) in [BlobLine(role, hash)];
  }

  lemma BlobLinesName(t: Theory, h: Hash)
    requires Clean(t)
    ensures Naming(BlobLines(t), h, Publishes(t, h))
  {
    NamingLine("sig", t.signature, h);
    NamingLine("sml", t.script, h);
    NamingLine("dat", t.data, h);
    TraceNames(t, h);
    ExtrasName(t, h);
    var (sig_, sml, dat) := ([BlobLine("sig", t.signature)], [BlobLine("sml", t.script)], [BlobLine("dat", t.data)]);
    assert BlobLines(t) == sig_ + sml + dat + TraceLines(t) + ExtraLines(t.extras);
    assert Publishes(t, h) == (h == t.signature || h == t.script || h == t.data || t.trace == Some(h) || NamedExtra(t, h));
    hide *;
    NamingBoth(sig_, sml, h, h == t.signature, h == t.script);
    NamingBoth(sig_ + sml, dat, h, h == t.signature || h == t.script, h == t.data);
    NamingBoth(sig_ + sml + dat, TraceLines(t), h, h == t.signature || h == t.script || h == t.data, t.trace == Some(h));
    NamingBoth(sig_ + sml + dat + TraceLines(t), ExtraLines(t.extras), h,
               h == t.signature || h == t.script || h == t.data || t.trace == Some(h), NamedExtra(t, h));
  }

  lemma TraceNames(t: Theory, h: Hash)
    requires Clean(t)
    ensures Naming(TraceLines(t), h, t.trace == Some(h))
  {
    match t.trace
    case Some(hash) => NamingLine("trace", hash, h);
    case None =>
  }

  lemma {:induction false} ExtrasName(t: Theory, h: Hash)
    requires forall e <- t.extras :: IsSha(e.1)
    ensures Naming(ExtraLines(t.extras), h, NamedExtra(t, h))
    decreases |t.extras|
  {
    if t.extras != [] {
      var (e, rest) := (t.extras[0], t.(extras := t.extras[1..]));
      assert e in t.extras && forall x <- rest.extras :: x in t.extras;
      ExtrasName(rest, h);
      ExtraNames(e.0, e.1, h);
      assert NamedExtra(t, h) <==> (h == e.1 && !Broken(e.0)) || NamedExtra(rest, h) by {
        assert forall x :: x in t.extras <==> x == e || x in rest.extras;
        hide Broken;
      }
      assert ExtraLines(t.extras) == [BlobLine(ExtraRole(e.0), e.1)] + ExtraLines(rest.extras);
      hide *;
      NamingBoth([BlobLine(ExtraRole(e.0), e.1)], ExtraLines(rest.extras), h, h == e.1 && !Broken(e.0), NamedExtra(rest, h));
    }
  }

  lemma ExtraNames(path: string, hash: Hash, h: Hash)
    requires IsSha(hash)
    ensures Naming([BlobLine(ExtraRole(path), hash)], h, h == hash && !Broken(path))
  {
    hide NamesBlob, OneLine, IsSha, Broken, ExtraRole;
    ExtraLineNames(path, hash, h);
    assert BlobLine(ExtraRole(path), hash) in [BlobLine(ExtraRole(path), hash)];
  }

  /** A theory's manifest names its blobs and no others; but one of an extra output whose
      path has a vertical tab, form feed or carriage return before something else is lost. */
  lemma PublishedBlobsAreFound(t: Theory, h: Hash)
    requires Clean(t)
    ensures h in LiveBlobs(ManifestText(t)) <==> Publishes(t, h)
    ensures h in UniqueBlobs(ManifestText(t)) <==> Publishes(t, h)
  {
    var lines := Opening(t) + BlobLines(t);
    OpeningNamesNothing(t, h);
    BlobLinesName(t, h);
    LiveBlobsAreSaid(ManifestText(t), h);
    hide Publishes, NamesBlob, LiveBlobs, UniqueBlobs, Opening, BlobLines, OneLine, Tokens, Clean;
    assert |Opening(t)| >= 5 by { OpeningIsLong(t); }
    assert AllOneLine(lines) && forall line <- lines :: line != [];
    TokensOfLines(lines);
    forall line | line != []
      ensures HasLine(ManifestText(t), line) <==> line in lines
    {
      EmptyIsOneLine();
      assert [] + ManifestText(t) == ManifestText(t);
      TokensAreLines(ManifestText(t), [], line);
    }
    assert !NamesBlob([], h) by { NothingNamesNothing(h); }
  }

  /** Such an output: its blob is neither kept nor copied. */
  lemma ExtraOutputIsLost(t: Theory, h: Hash)
    requires Clean(t) && t.extras == [("a\rb", h)]
    requires h != t.signature && h != t.script && h != t.data && t.trace != Some(h)
    ensures h !in LiveBlobs(ManifestText(t)) && h !in UniqueBlobs(ManifestText(t))
  {
    var path := "a\rb";
    assert IsBreak(path[1]) && !IsBreak(path[2]);
    assert Broken(path);
    PublishedBlobsAreFound(t, h);
    hide Broken, LiveBlobs, UniqueBlobs, ManifestText, Clean;
  }

  lemma OpeningIsLong(t: Theory)
    ensures |Opening(t)| >= 5
  {}

  lemma EmptyIsOneLine()
    ensures OneLine([])
  {}

  lemma NothingNamesNothing(h: Hash)
    ensures !NamesBlob([], h)
  {
    EmptyIsOneLine();
    BlobRefIs([], h);
  }
}
