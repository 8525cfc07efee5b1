/** The blobs an action's manifest names, as the two programs that read it find them. */
module Manifest {
  import opened Wrappers
  import opened Text

  type Hash = string

  function TrimNewline(s: string): string {
    if s != [] && s[|s| - 1] == '\n' then s[..|s| - 1] else s
  }

  function TakeToken(s: string): string {
    if s == [] || s[0] == ' ' || s[0] == '\t' || s[0] == '\n' then [] else [s[0]] + TakeToken(s[1..])
  }

  function BlobRef(line: string): Option<Hash> {
    var clean := TrimNewline(line);
    var words := Tokens(IsSpace, clean, []);
    if |words| == 3 && words[0] == "blob" then Some(words[2])
    else if "blob=" <= clean then Some(TakeToken(clean[5..]))
    else None
  }

  // ------------------------------------------------------------ the transfer's reading

  /** `unique_blobs`: the fold over lines, with what was found before. */
  function Collected(lines: seq<string>, found: seq<Hash>): (r: seq<Hash>)
  {
    if lines == [] then found
    else
      match BlobRef(lines[0])
      case None => Collected(lines[1..], found)
      case Some(hash) => Collected(lines[1..], if hash in found then found else found + [hash])
  }

  function UniqueBlobs(manifest: string): seq<Hash> {
    Collected(Tokens(IsLineEnd, manifest, []), [])
  }

  // ------------------------------------------------------------ the collector's reading

  /** `read_lines`: every line with its end, the last one too. */
  function InputLines(text: string, line: string): seq<string> {
    if text == [] then (if line == [] then [] else [line + "\n"])
    else if text[0] == '\n' then [line + "\n"] + InputLines(text[1..], [])
    else InputLines(text[1..], line + [text[0]])
  }

  function Named(lines: seq<string>): set<Hash> {
    if lines == [] then {}
    else (match BlobRef(lines[0]) case Some(hash) => {hash} case None => {}) + Named(lines[1..])
  }

  /** `action_live_blobs` of a manifest that is there. */
  function LiveBlobs(manifest: string): set<Hash> {
    Named(InputLines(manifest, []))
  }

  // ------------------------------------------------------------ they agree

  lemma {:induction false} CollectedNames(lines: seq<string>, found: seq<Hash>)
    requires forall i, j | 0 <= i < j < |found| :: found[i] != found[j]
    ensures var r := Collected(lines, found);
            && (forall i, j | 0 <= i < j < |r| :: r[i] != r[j])
            && (forall h :: h in r <==> h in found || h in Named(lines))
  {
    if lines != [] {
      match BlobRef(lines[0])
      case None => CollectedNames(lines[1..], found);
      case Some(hash) =>
        var more := if hash in found then found else found + [hash];
        assert forall i, j | 0 <= i < j < |more| :: more[i] != more[j];
        CollectedNames(lines[1..], more);
    }
  }

  lemma LineEndIgnored(line: string)
    requires OneLine(line)
    ensures BlobRef(line + "\n") == BlobRef(line)
    ensures line == [] ==> BlobRef(line) == None
  {
    assert TrimNewline(line + "\n") == line == TrimNewline(line);
  }

  lemma NamedMore(line: string, lines: seq<string>)
    ensures Named([line] + lines) == (match BlobRef(line) case Some(hash) => {hash} case None => {}) + Named(lines)
  {
    assert ([line] + lines)[1..] == lines;
  }

  lemma {:induction false} ReadingsAgreeFrom(text: string, line: string)
    requires OneLine(line)
    ensures Named(InputLines(text, line)) == Named(Tokens(IsLineEnd, text, line))
  {
    LineEndIgnored(line);
    hide BlobRef;
    if text == [] {
      NamedMore(line + "\n", []);
      NamedMore(line, []);
    } else if text[0] == '\n' {
      ReadingsAgreeFrom(text[1..], []);
      NamedMore(line + "\n", InputLines(text[1..], []));
      NamedMore(line, Tokens(IsLineEnd, text[1..], []));
      assert [] + Tokens(IsLineEnd, text[1..], []) == Tokens(IsLineEnd, text[1..], []);
    } else {
      ReadingsAgreeFrom(text[1..], line + [text[0]]);
    }
  }

  /** The transfer copies, each once, exactly the blobs the collector keeps. */
  lemma ReadingsAgree(manifest: string)
    ensures forall h :: h in UniqueBlobs(manifest) <==> h in LiveBlobs(manifest)
    ensures forall i, j | 0 <= i < j < |UniqueBlobs(manifest)| :: UniqueBlobs(manifest)[i] != UniqueBlobs(manifest)[j]
  {
    CollectedNames(Tokens(IsLineEnd, manifest, []), []);
    ReadingsAgreeFrom(manifest, []);
  }

  // ------------------------------------------------------------ what a manifest says

  /** The text has the line at `i`. */
  ghost predicate LineAt(text: string, i: nat, line: string) {
    && i + |line| <= |text| && text[i..i + |line|] == line
    && (i == 0 || text[i - 1] == '\n') && (i + |line| == |text| || text[i + |line|] == '\n')
  }

  /** The text has this line. */
  ghost predicate HasLine(text: string, line: string) {
    OneLine(line) && exists i: nat :: LineAt(text, i, line)
  }

  /** Words with white space between, and around, as it may be. */
  ghost predicate Spaced(line: string, word1: string, word2: string, word3: string) {
    exists s0, s1, s2, s3 :: line == SpacedText(s0, word1, s1, word2, s2, word3, s3)
      && AllAre(IsSpace, s0) && AllAre(IsSpace, s1) && AllAre(IsSpace, s2) && AllAre(IsSpace, s3) && s1 != [] && s2 != []
  }

  function SpacedText(s0: string, word1: string, s1: string, word2: string, s2: string, word3: string, s3: string): string {
    s0 + word1 + s1 + word2 + s2 + word3 + s3
  }

  predicate EndsToken(c: char) {
    c == ' ' || c == '\t' || c == '\n'
  }

  ghost predicate NamesAfterEquals(line: string, hash: Hash) {
    exists rest :: line == "blob=" + hash + rest && (forall c <- hash :: !EndsToken(c)) && Breaks(EndsToken, rest)
  }

  /** The line is `blob`, a role and the hash, or `blob=` and the hash. */
  ghost predicate NamesBlob(line: string, hash: Hash) {
    (exists role :: Spaced(line, "blob", role, hash) && IsToken(IsSpace, role) && IsToken(IsSpace, hash)) || NamesAfterEquals(line, hash)
  }

  ghost predicate Says(manifest: string, hash: Hash) {
    exists line :: HasLine(manifest, line) && NamesBlob(line, hash)
  }

  // ---- its lines are its tokens

  lemma LineAfter(token: string, rest: string, line: string)
    requires HasLine(rest, line)
    ensures HasLine(token + "\n" + rest, line)
  {
    var i: nat :| LineAt(rest, i, line);
    var text, k := token + "\n" + rest, |token| + 1 + i;
    assert text[|token| + 1..] == rest;
    assert text[k..k + |line|] == line;
    assert LineAt(text, k, line);
  }

  lemma FirstLine(token: string, rest: string)
    requires OneLine(token)
    ensures HasLine(token + "\n" + rest, token) && HasLine(token, token)
  {
    assert LineAt(token, 0, token);
    assert LineAt(token + "\n" + rest, 0, token);
  }

  lemma EndIsOutside(text: string, i: nat, line: string, k: nat)
    requires OneLine(line) && LineAt(text, i, line) && k < |text| && text[k] == '\n'
    ensures k < i || i + |line| <= k
  {
    assert forall j | 0 <= j < |line| :: line[j] == text[i + j] && line[j] != '\n';
    assert forall j | i <= j < i + |line| :: text[j] == line[j - i];
  }

  lemma LineIsFirstOrAfter(token: string, rest: string, line: string)
    requires OneLine(token) && HasLine(token + "\n" + rest, line)
    ensures line == token || HasLine(rest, line)
  {
    var text := token + "\n" + rest;
    var i: nat :| LineAt(text, i, line);
    assert text[|token|] == '\n' && text[..|token|] == token && text[|token| + 1..] == rest;
    EndIsOutside(text, i, line, |token|);
    assert forall k | 0 <= k < |token| :: text[k] == token[k] && text[k] != '\n';
    if i > |token| {
      assert LineAt(rest, i - |token| - 1, line);
    }
  }

  lemma OnlyLine(token: string, line: string)
    requires OneLine(token) && HasLine(token, line)
    ensures line == token
  {
    var i: nat :| LineAt(token, i, line);
    assert forall k | 0 <= k < |token| :: token[k] != '\n';
  }

  lemma {:induction false} TokensAreLines(text: string, token: string, line: string)
    requires OneLine(token) && line != []
    ensures line in Tokens(IsLineEnd, text, token) <==> HasLine(token + text, line)
    decreases |text|
  {
    if text == [] {
      assert token + text == token;
      FirstLine(token, []);
      if HasLine(token, line) { OnlyLine(token, line); }
    } else if text[0] == '\n' {
      TokensAreLines(text[1..], [], line);
      assert [] + text[1..] == text[1..] && token + text == token + "\n" + text[1..];
      FirstLine(token, text[1..]);
      if HasLine(text[1..], line) { LineAfter(token, text[1..], line); }
      if HasLine(token + text, line) { LineIsFirstOrAfter(token, text[1..], line); }
    } else {
      assert token + text == token + [text[0]] + text[1..];
      TokensAreLines(text[1..], token + [text[0]], line);
    }
  }

  // ---- what a line names

  lemma TokensOfSpaced(line: string, word1: string, word2: string, word3: string)
    requires IsToken(IsSpace, word1) && IsToken(IsSpace, word2) && IsToken(IsSpace, word3) && Spaced(line, word1, word2, word3)
    ensures Tokens(IsSpace, line, []) == [word1, word2, word3]
  {
    var s0, s1, s2, s3 :| line == SpacedText(s0, word1, s1, word2, s2, word3, s3)
      && AllAre(IsSpace, s0) && AllAre(IsSpace, s1) && AllAre(IsSpace, s2) && AllAre(IsSpace, s3) && s1 != [] && s2 != [];
    hide IsSpace, Tokens, SpacedText;
    var (r1, r2) := (s1 + (word2 + (s2 + (word3 + s3))), s2 + (word3 + s3));
    SpacedIs(s0, word1, s1, word2, s2, word3, s3);
    NextToken(s0, word1, r1);
    NextToken(s1, word2, r2);
    NextToken(s2, word3, s3);
    TokensPastGap(IsSpace, s3, []);
    assert s3 + [] == s3;
    assert Tokens(IsSpace, [], []) == [] by { Nothing(); }
  }

  lemma Nothing()
    ensures Tokens(IsSpace, [], []) == []
  {}

  lemma SpacedIs(s0: string, word1: string, s1: string, word2: string, s2: string, word3: string, s3: string)
    ensures SpacedText(s0, word1, s1, word2, s2, word3, s3) == s0 + (word1 + (s1 + (word2 + (s2 + (word3 + s3)))))
  {}

  lemma NextToken(gap: string, word: string, rest: string)
    requires AllAre(IsSpace, gap) && IsToken(IsSpace, word) && Breaks(IsSpace, rest)
    ensures Tokens(IsSpace, gap + (word + rest), []) == [word] + Tokens(IsSpace, rest, [])
  {
    hide IsSpace, Tokens;
    assert [] + word == word;
    TokensPastGap(IsSpace, gap, word + rest);
    TokensPastToken(IsSpace, word, rest, []);
  }

  lemma SpacedOfTokens(line: string)
    requires |Tokens(IsSpace, line, [])| == 3
    ensures var words := Tokens(IsSpace, line, []);
            Spaced(line, words[0], words[1], words[2]) && forall w <- words :: IsToken(IsSpace, w)
  {
    hide IsSpace, Tokens, SpacedText, IsToken;
    var s0, word1, r1 := FirstToken(IsSpace, line);
    var s1, word2, r2 := FirstToken(IsSpace, r1);
    var s2, word3, s3 := FirstToken(IsSpace, r2);
    assert Tokens(IsSpace, line, []) == [word1, word2, word3] + Tokens(IsSpace, s3, []);
    NoTokens(IsSpace, s3);
    GapBetween(r1, s1, word2, r2);
    GapBetween(r2, s2, word3, s3);
    SpacedIs(s0, word1, s1, word2, s2, word3, s3);
    assert line == s0 + (word1 + (s1 + (word2 + (s2 + (word3 + s3)))));
  }

  lemma GapBetween(text: string, gap: string, word: string, rest: string)
    requires Breaks(IsSpace, text) && text == gap + word + rest && IsToken(IsSpace, word)
    ensures gap != [] && text == gap + (word + rest)
  {
    assert word[0] in word && (word + rest)[0] == word[0];
    assert text == gap + (word + rest);
  }

  lemma TakenToken(s: string, hash: string)
    ensures TakeToken(s) == hash <==> exists rest :: s == hash + rest && (forall c <- hash :: !EndsToken(c)) && Breaks(EndsToken, rest)
  {
    var t := TakeTokenSplits(s);
    if rest :| s == hash + rest && (forall c <- hash :: !EndsToken(c)) && Breaks(EndsToken, rest) {
      TakeTokenStops(hash, rest);
    }
  }

  lemma {:induction false} TakeTokenSplits(s: string) returns (rest: string)
    ensures s == TakeToken(s) + rest && (forall c <- TakeToken(s) :: !EndsToken(c)) && Breaks(EndsToken, rest)
  {
    if s == [] || EndsToken(s[0]) {
      rest := s;
    } else {
      rest := TakeTokenSplits(s[1..]);
      assert s == [s[0]] + s[1..];
    }
  }

  lemma {:induction false} TakeTokenStops(hash: string, rest: string)
    requires (forall c <- hash :: !EndsToken(c)) && Breaks(EndsToken, rest)
    ensures TakeToken(hash + rest) == hash
  {
    if hash == [] {
      assert hash + rest == rest;
    } else {
      assert (hash + rest)[1..] == hash[1..] + rest && !EndsToken(hash[0]);
      TakeTokenStops(hash[1..], rest);
    }
  }

  lemma SpacedStart(line: string, role: string, hash: Hash)
    requires Spaced(line, "blob", role, hash)
    ensures !("blob=" <= line)
  {
    var s0, s1, s2, s3 :| line == SpacedText(s0, "blob", s1, role, s2, hash, s3)
      && AllAre(IsSpace, s0) && AllAre(IsSpace, s1) && AllAre(IsSpace, s2) && AllAre(IsSpace, s3) && s1 != [] && s2 != [];
    SpacedIs(s0, "blob", s1, role, s2, hash, s3);
    var rest := s1 + (role + (s2 + (hash + s3)));
    assert line == s0 + ("blob" + rest) && rest[0] == s1[0] && IsSpace(s1[0]);
    if s0 == [] {
      assert line == "blob" + rest && line[4] == s1[0];
    } else {
      assert line[0] == s0[0] && IsSpace(s0[0]);
    }
  }

  /** What a line is read to name is what it says. */
  lemma BlobRefIs(line: string, hash: Hash)
    requires OneLine(line)
    ensures BlobRef(line) == Some(hash) <==> NamesBlob(line, hash)
  {
    assert TrimNewline(line) == line by { if line != [] { assert line[|line| - 1] in line; } }
    var words := Tokens(IsSpace, line, []);
    if |words| == 3 { SpacedOfTokens(line); }
    if role :| Spaced(line, "blob", role, hash) && IsToken(IsSpace, role) && IsToken(IsSpace, hash) {
      TokensOfSpaced(line, "blob", role, hash);
      SpacedStart(line, role, hash);
    }
    TakenAfterEquals(line, hash);
    if |words| == 3 && words[0] == "blob" { SpacedStart(line, words[1], words[2]); }
    hide Tokens, Spaced, TakeToken, IsToken, IsSpace, TrimNewline;
  }

  lemma TakenAfterEquals(line: string, hash: Hash)
    ensures "blob=" <= line && TakeToken(line[5..]) == hash <==> NamesAfterEquals(line, hash)
  {
    if "blob=" <= line {
      TakenToken(line[5..], hash);
      assert line == "blob=" + line[5..];
      forall rest
        ensures line == "blob=" + hash + rest <==> line[5..] == hash + rest
      {
        assert "blob=" + hash + rest == "blob=" + (hash + rest);
        assert ("blob=" + (hash + rest))[5..] == hash + rest;
      }
    }
  }

  lemma {:induction false} NamedIs(lines: seq<string>, hash: Hash)
    ensures hash in Named(lines) <==> exists line <- lines :: BlobRef(line) == Some(hash)
  {
    if lines != [] {
      hide BlobRef;
      NamedIs(lines[1..], hash);
      assert forall line :: line in lines <==> line == lines[0] || line in lines[1..];
    }
  }

  /** The collector keeps, and the transfer copies, exactly the blobs the manifest says. */
  lemma LiveBlobsAreSaid(manifest: string, hash: Hash)
    ensures hash in LiveBlobs(manifest) <==> Says(manifest, hash)
    ensures hash in UniqueBlobs(manifest) <==> Says(manifest, hash)
  {
    var lines := Tokens(IsLineEnd, manifest, []);
    ReadingsAgree(manifest);
    ReadingsAgreeFrom(manifest, []);
    NamedIs(lines, hash);
    hide BlobRef, NamesBlob, LiveBlobs, UniqueBlobs, Named, Tokens;
    assert [] + manifest == manifest;
    if line :| line in lines && BlobRef(line) == Some(hash) {
      LineIsNotEmpty(line);
      TokensAreLines(manifest, [], line);
      BlobRefIs(line, hash);
    }
    if line :| HasLine(manifest, line) && NamesBlob(line, hash) {
      BlobRefIs(line, hash);
      LineIsNotEmpty(line);
      TokensAreLines(manifest, [], line);
    }
  }

  lemma LineIsNotEmpty(line: string)
    requires BlobRef(line).Some?
    ensures line != []
  {}

  /** The two forms a publisher writes. */
  lemma PlainLinesName(role: string, hash: Hash)
    requires IsToken(IsSpace, role) && IsToken(IsSpace, hash)
    ensures NamesBlob("blob " + role + " " + hash, hash) && NamesBlob("blob=" + hash, hash)
  {
    assert SpacedText([], "blob", " ", role, " ", hash, []) == "blob " + role + " " + hash;
    assert Spaced("blob " + role + " " + hash, "blob", role, hash);
    assert "blob=" + hash == "blob=" + hash + [];
  }
}
