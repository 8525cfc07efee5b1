/** Texts the planner and the fingerprints build: decimal numbers, length-framed
    fields, the order of strings and the planner's merge sort. */
module Text {

  function Digit(d: nat): char
    requires d < 10
  {
    "0123456789"[d]
  }

  /** `Int.toString` of a natural number. */
  function Decimal(n: nat): (s: string)
    ensures s != []
    ensures forall c <- s :: '0' <= c <= '9'
  {
    if n < 10 then [Digit(n)] else Decimal(n / 10) + [Digit(n % 10)]
  }

  function DecimalValue(s: string): int {
    if s == [] then 0
    else 10 * DecimalValue(s[..|s| - 1]) + (s[|s| - 1] as int - '0' as int)
  }

  lemma {:induction false} DecimalRoundTrip(n: nat)
    ensures DecimalValue(Decimal(n)) == n
  {
    if n >= 10 {
      DecimalRoundTrip(n / 10);
      var s := Decimal(n);
      assert s[..|s| - 1] == Decimal(n / 10);
      assert s[|s| - 1] == Digit(n % 10);
    } else {
      assert Decimal(n)[..0] == [];
    }
  }

  /** A text up to its first separator is determined. */
  lemma SplitAtSeparator(p: string, q: string, c: char, r: string, s: string)
    requires c !in p && c !in q
    requires p + [c] + r == q + [c] + s
    ensures p == q && r == s
  {
    var t := p + [c] + r;
    assert t[|p|] == c && t[|q|] == c by {
      assert t == q + [c] + s;
    }
    assert forall i :: 0 <= i < |p| ==> t[i] == p[i];
    assert forall i :: 0 <= i < |q| ==> t[i] == (q + [c] + s)[i] == q[i];
    assert |p| == |q|;
    assert p == t[..|p|] == q;
    assert r == t[|p| + 1..] == s;
  }

  lemma DecimalPrefix(m: nat, n: nat, r: string, s: string)
    requires Decimal(m) + ":" + r == Decimal(n) + ":" + s
    ensures m == n && r == s
  {
    SplitAtSeparator(Decimal(m), Decimal(n), ':', r, s);
    DecimalRoundTrip(m);
    DecimalRoundTrip(n);
  }

  /** `canonical_frame`, and `str` of the fingerprints: a text behind its length. */
  function Frame(s: string): string {
    Decimal(|s|) + ":" + s
  }

  /** A frame ends where its length says, whatever follows it. */
  lemma FramePrefix(a: string, b: string, r: string, s: string)
    requires Frame(a) + r == Frame(b) + s
    ensures a == b && r == s
  {
    assert Frame(a) + r == Decimal(|a|) + ":" + (a + r);
    assert Frame(b) + s == Decimal(|b|) + ":" + (b + s);
    DecimalPrefix(|a|, |b|, a + r, b + s);
    assert a == (a + r)[..|a|] == b;
    assert r == (a + r)[|a|..] == s;
  }

  function Concat(pieces: seq<string>): string {
    if pieces == [] then "" else pieces[0] + Concat(pieces[1..])
  }

  lemma {:induction false} ConcatAppend(xs: seq<string>, ys: seq<string>)
    ensures Concat(xs + ys) == Concat(xs) + Concat(ys)
  {
    if xs == [] {
      assert xs + ys == ys;
    } else {
      assert (xs + ys)[1..] == xs[1..] + ys;
      ConcatAppend(xs[1..], ys);
    }
  }

  /** `canonical_fields`. */
  function Fields(values: seq<string>): string {
    if values == [] then "" else Frame(values[0]) + Fields(values[1..])
  }

  lemma FieldsEmpty(values: seq<string>)
    ensures Fields(values) == "" <==> values == []
  {
    if values != [] {
      assert |Frame(values[0])| > 0;
    }
  }

  /** Length-framed fields are uniquely decodable, for all strings. */
  lemma {:induction false} FieldsDecodable(xs: seq<string>, ys: seq<string>)
    requires Fields(xs) == Fields(ys)
    ensures xs == ys
  {
    if xs == [] || ys == [] {
      FieldsEmpty(xs);
      FieldsEmpty(ys);
    } else {
      FramePrefix(xs[0], ys[0], Fields(xs[1..]), Fields(ys[1..]));
      FieldsDecodable(xs[1..], ys[1..]);
      assert xs == [xs[0]] + xs[1..] && ys == [ys[0]] + ys[1..];
    }
  }

  /** `String.concatWith "\n" lines ^ "\n"` */
  function JoinLines(lines: seq<string>): string {
    if lines == [] then "\n" else if |lines| == 1 then lines[0] + "\n" else lines[0] + "\n" + JoinLines(lines[1..])
  }

  predicate OneLine(s: string) {
    '\n' !in s
  }

  predicate AllOneLine(xs: seq<string>) {
    forall x <- xs :: OneLine(x)
  }

  lemma {:induction false} JoinLinesInjective(xs: seq<string>, ys: seq<string>)
    requires xs != [] && ys != [] && AllOneLine(xs) && AllOneLine(ys)
    requires JoinLines(xs) == JoinLines(ys)
    ensures xs == ys
  {
    var r := if |xs| == 1 then "" else JoinLines(xs[1..]);
    var s := if |ys| == 1 then "" else JoinLines(ys[1..]);
    assert JoinLines(xs) == xs[0] + ['\n'] + r;
    assert JoinLines(ys) == ys[0] + ['\n'] + s;
    assert xs[0] in xs && ys[0] in ys;
    SplitAtSeparator(xs[0], ys[0], '\n', r, s);
    if |xs| > 1 && |ys| > 1 {
      JoinLinesInjective(xs[1..], ys[1..]);
    } else {
      JoinLinesNonEmpty(xs[1..]);
      JoinLinesNonEmpty(ys[1..]);
    }
    assert xs == [xs[0]] + xs[1..] && ys == [ys[0]] + ys[1..];
  }

  lemma JoinLinesNonEmpty(xs: seq<string>)
    ensures JoinLines(xs) != ""
  {}

  /** `String.tokens`: the pieces between separators, but for empty ones. */
  function Tokens(separates: char -> bool, text: string, token: string): seq<string> {
    var ended := if token == [] then [] else [token];
    if text == [] then ended
    else if separates(text[0]) then ended + Tokens(separates, text[1..], [])
    else Tokens(separates, text[1..], token + [text[0]])
  }

  /** A SHA-256 in lower-case hex. */
  predicate IsSha(s: string) {
    |s| == 64 && forall c <- s :: '0' <= c <= '9' || 'a' <= c <= 'f'
  }

  /** `Char.isSpace` */
  function IsSpace(c: char): bool {
    c == ' ' || '\t' <= c <= '\r'
  }

  function IsLineEnd(c: char): bool {
    c == '\n'
  }

  lemma {:induction false} TokensOfLine(line: string, rest: string, token: string)
    requires OneLine(line) && token + line != []
    ensures Tokens(IsLineEnd, line + "\n" + rest, token) == [token + line] + Tokens(IsLineEnd, rest, [])
  {
    var text := line + "\n" + rest;
    if line == [] {
      assert text == ['\n'] + rest && text[1..] == rest;
      assert token + line == token;
    } else {
      assert text[1..] == line[1..] + "\n" + rest;
      TokensOfLine(line[1..], rest, token + [line[0]]);
      assert token + line == token + [line[0]] + line[1..];
    }
  }

  lemma {:induction false} TokensOfLines(lines: seq<string>)
    requires lines != [] && AllOneLine(lines) && forall l <- lines :: l != []
    ensures Tokens(IsLineEnd, JoinLines(lines), []) == lines
  {
    assert lines[0] in lines && forall l <- lines[1..] :: l in lines;
    assert [] + lines[0] == lines[0];
    if |lines| == 1 {
      TokensOfLine(lines[0], [], []);
      assert JoinLines(lines) == lines[0] + "\n" + [];
    } else {
      TokensOfLine(lines[0], JoinLines(lines[1..]), []);
      TokensOfLines(lines[1..]);
    }
    assert lines == [lines[0]] + lines[1..];
  }

  // ------------------------------------------------------------ words

  predicate AllAre(p: char -> bool, s: string) {
    forall c <- s :: p(c)
  }

  /** A piece between separators. */
  predicate IsToken(separates: char -> bool, s: string) {
    s != [] && forall c <- s :: !separates(c)
  }

  predicate Breaks(separates: char -> bool, rest: string) {
    rest == [] || separates(rest[0])
  }

  lemma {:induction false} TokensPastGap(separates: char -> bool, gap: string, rest: string)
    requires AllAre(separates, gap)
    ensures Tokens(separates, gap + rest, []) == Tokens(separates, rest, [])
  {
    if gap == [] {
      assert gap + rest == rest;
    } else {
      assert (gap + rest)[1..] == gap[1..] + rest && separates(gap[0]);
      TokensPastGap(separates, gap[1..], rest);
    }
  }

  lemma FirstIsGap(separates: char -> bool, text: string)
    requires text != [] && separates(text[0])
    ensures Tokens(separates, text, []) == Tokens(separates, text[1..], [])
  {}

  lemma {:induction false} TokensPastToken(separates: char -> bool, word: string, rest: string, token: string)
    requires IsToken(separates, token + word) && Breaks(separates, rest)
    ensures Tokens(separates, word + rest, token) == [token + word] + Tokens(separates, rest, [])
    decreases |word|
  {
    if word == [] {
      assert word + rest == rest && token + word == token;
      if rest != [] { FirstIsGap(separates, rest); }
    } else {
      assert (word + rest)[1..] == word[1..] + rest;
      assert token + [word[0]] + word[1..] == token + word;
      assert (token + word)[|token|] == word[0];
      TokensPastToken(separates, word[1..], rest, token + [word[0]]);
    }
  }

  lemma {:induction false} TokenEnds(separates: char -> bool, text: string, token: string) returns (word: string, rest: string)
    requires IsToken(separates, token)
    ensures token + text == word + rest && IsToken(separates, word) && Breaks(separates, rest)
    ensures Tokens(separates, text, token) == [word] + Tokens(separates, rest, [])
    decreases |text|
  {
    if text == [] || separates(text[0]) {
      word, rest := token, text;
      if text != [] { FirstIsGap(separates, text); }
    } else {
      word, rest := TokenEnds(separates, text[1..], token + [text[0]]);
      assert token + text == token + [text[0]] + text[1..];
    }
  }

  /** The first token, what stands before it, and what follows. */
  lemma {:induction false} FirstToken(separates: char -> bool, text: string) returns (gap: string, word: string, rest: string)
    requires Tokens(separates, text, []) != []
    ensures text == gap + word + rest && AllAre(separates, gap) && IsToken(separates, word) && Breaks(separates, rest)
    ensures Tokens(separates, text, []) == [word] + Tokens(separates, rest, [])
    decreases |text|
  {
    if separates(text[0]) {
      gap, word, rest := FirstToken(separates, text[1..]);
      assert text == [text[0]] + text[1..];
      gap := [text[0]] + gap;
    } else {
      assert [] + [text[0]] == [text[0]] && text == [text[0]] + text[1..];
      gap := [];
      word, rest := TokenEnds(separates, text[1..], [text[0]]);
    }
  }

  lemma {:induction false} NoTokens(separates: char -> bool, text: string)
    requires Tokens(separates, text, []) == []
    ensures AllAre(separates, text)
  {
    if text != [] {
      if separates(text[0]) {
        NoTokens(separates, text[1..]);
      } else {
        SomeToken(separates, text[1..], [] + [text[0]]);
      }
    }
  }

  lemma {:induction false} SomeToken(separates: char -> bool, text: string, token: string)
    requires token != []
    ensures Tokens(separates, text, token) != []
  {
    if text != [] && !separates(text[0]) { SomeToken(separates, text[1..], token + [text[0]]); }
  }

  /** `String.compare (a, b) <> GREATER`. */
  predicate AtMost(a: string, b: string) {
    a == [] || (b != [] && (a[0] < b[0] || (a[0] == b[0] && AtMost(a[1..], b[1..]))))
  }

  lemma {:induction false} AtMostTotal(a: string, b: string)
    ensures AtMost(a, b) || AtMost(b, a)
  {
    if a != [] && b != [] && a[0] == b[0] {
      AtMostTotal(a[1..], b[1..]);
    }
  }

  lemma {:induction false} AtMostAntisymmetric(a: string, b: string)
    requires AtMost(a, b) && AtMost(b, a)
    ensures a == b
  {
    if a != [] && b != [] {
      AtMostAntisymmetric(a[1..], b[1..]);
      assert a == [a[0]] + a[1..] && b == [b[0]] + b[1..];
    }
  }

  lemma {:induction false} AtMostTransitive(a: string, b: string, c: string)
    requires AtMost(a, b) && AtMost(b, c)
    ensures AtMost(a, c)
  {
    if a != [] && a[0] == b[0] && b[0] == c[0] {
      AtMostTransitive(a[1..], b[1..], c[1..]);
    }
  }

  /** Every element's key is at most every later one's. */
  predicate SortedBy<T>(name: T -> string, xs: seq<T>) {
    forall i, j :: 0 <= i < j < |xs| ==> AtMost(name(xs[i]), name(xs[j]))
  }

  /** A string as its own key. */
  function Itself(s: string): string {
    s
  }

  lemma HeadAtMost<T>(name: T -> string, xs: seq<T>, y: T)
    requires xs != [] && SortedBy(name, xs) && y in multiset(xs)
    ensures AtMost(name(xs[0]), name(y))
  {
    var j :| 0 <= j < |xs| && xs[j] == y;
    AtMostTotal(name(y), name(y));
  }

  lemma TailMultiset<T>(xs: seq<T>)
    requires xs != []
    ensures multiset(xs[1..]) == multiset(xs) - multiset{xs[0]}
  {
    assert xs == [xs[0]] + xs[1..];
  }

  lemma SameHead(xs: seq<string>, ys: seq<string>)
    requires SortedBy(Itself, xs) && SortedBy(Itself, ys) && multiset(xs) == multiset(ys) && xs != []
    ensures ys != [] && xs[0] == ys[0]
  {
    assert xs[0] in multiset(xs);
    assert ys != [];
    assert ys[0] in multiset(ys);
    HeadAtMost(Itself, ys, xs[0]);
    HeadAtMost(Itself, xs, ys[0]);
    AtMostAntisymmetric(xs[0], ys[0]);
  }

  lemma SortedTail<T>(name: T -> string, xs: seq<T>)
    requires SortedBy(name, xs) && xs != []
    ensures SortedBy(name, xs[1..])
  {}

  /** A sorted list is determined by what is in it and how often. */
  lemma {:induction false} SortedUnique(xs: seq<string>, ys: seq<string>)
    requires SortedBy(Itself, xs) && SortedBy(Itself, ys)
    requires multiset(xs) == multiset(ys)
    ensures xs == ys
  {
    hide SortedBy, AtMost;
    if xs == [] {
      assert |multiset(ys)| == |ys|;
    } else {
      SameHead(xs, ys);
      TailMultiset(xs);
      TailMultiset(ys);
      SortedTail(Itself, xs);
      SortedTail(Itself, ys);
      SortedUnique(xs[1..], ys[1..]);
      assert xs == [xs[0]] + xs[1..] && ys == [ys[0]] + ys[1..];
    }
  }

  /** `split_pairs`: alternate elements go left and right, each side reversed. */
  function SplitPairs<T>(left: seq<T>, right: seq<T>, rest: seq<T>): (r: (seq<T>, seq<T>))
    ensures multiset(r.0) + multiset(r.1) == multiset(left) + multiset(right) + multiset(rest)
    ensures |r.0| == |left| + (|rest| + 1) / 2 && |r.1| == |right| + |rest| / 2
    decreases |rest|
  {
    if rest == [] then (left, right)
    else if |rest| == 1 then
      assert rest == [rest[0]];
      ([rest[0]] + left, right)
    else
      assert rest == [rest[0]] + [rest[1]] + rest[2..];
      SplitPairs([rest[0]] + left, [rest[1]] + right, rest[2..])
  }

  /** `merge_pairs`, comparing keys. */
  function MergePairs<T>(name: T -> string, left: seq<T>, right: seq<T>): (r: seq<T>)
    ensures multiset(r) == multiset(left) + multiset(right)
    decreases |left| + |right|
  {
    if left == [] then right
    else if right == [] then left
    else if AtMost(name(left[0]), name(right[0])) then
      assert left == [left[0]] + left[1..];
      [left[0]] + MergePairs(name, left[1..], right)
    else
      assert right == [right[0]] + right[1..];
      [right[0]] + MergePairs(name, left, right[1..])
  }

  /** `x` is at most everything in `xs`. */
  ghost predicate BelowAll<T>(name: T -> string, x: T, xs: seq<T>) {
    forall y <- multiset(xs) :: AtMost(name(x), name(y))
  }

  lemma SortedCons<T>(name: T -> string, x: T, xs: seq<T>)
    requires SortedBy(name, xs) && BelowAll(name, x, xs)
    ensures SortedBy(name, [x] + xs)
  {
    var s := [x] + xs;
    forall i, j | 0 <= i < j < |s|
      ensures AtMost(name(s[i]), name(s[j]))
    {
      if i == 0 {
        assert xs[j - 1] in multiset(xs);
      } else {
        assert s[i] == xs[i - 1] && s[j] == xs[j - 1];
      }
    }
  }

  /** Being at most the head of a sorted list is being at most all of it. */
  lemma AtMostAll<T>(name: T -> string, x: T, xs: seq<T>)
    requires SortedBy(name, xs) && (xs != [] ==> AtMost(name(x), name(xs[0])))
    ensures BelowAll(name, x, xs)
  {
    forall y | y in multiset(xs)
      ensures AtMost(name(x), name(y))
    {
      HeadAtMost(name, xs, y);
      AtMostTransitive(name(x), name(xs[0]), name(y));
    }
  }

  lemma BelowBoth<T>(name: T -> string, x: T, xs: seq<T>, ys: seq<T>, zs: seq<T>)
    requires BelowAll(name, x, xs) && BelowAll(name, x, ys) && multiset(zs) == multiset(xs) + multiset(ys)
    ensures BelowAll(name, x, zs)
  {}

  lemma {:induction false} MergeSorted<T>(name: T -> string, left: seq<T>, right: seq<T>)
    requires SortedBy(name, left) && SortedBy(name, right)
    ensures SortedBy(name, MergePairs(name, left, right))
    decreases |left| + |right|
  {
    hide SortedBy, BelowAll, AtMost;
    if left != [] && right != [] {
      var (l, r) := (left[0], right[0]);
      AtMostTotal(name(l), name(r));
      SortedTail(name, left);
      SortedTail(name, right);
      if AtMost(name(l), name(r)) {
        MergeSorted(name, left[1..], right);
        AtMostAll(name, l, right);
        HeadBelowTail(name, left);
        BelowBoth(name, l, left[1..], right, MergePairs(name, left[1..], right));
        SortedCons(name, l, MergePairs(name, left[1..], right));
      } else {
        MergeSorted(name, left, right[1..]);
        AtMostAll(name, r, left);
        HeadBelowTail(name, right);
        BelowBoth(name, r, left, right[1..], MergePairs(name, left, right[1..]));
        SortedCons(name, r, MergePairs(name, left, right[1..]));
      }
    }
  }

  lemma HeadBelowTail<T>(name: T -> string, xs: seq<T>)
    requires xs != [] && SortedBy(name, xs)
    ensures BelowAll(name, xs[0], xs[1..])
  {
    SortedTail(name, xs);
    AtMostAll(name, xs[0], xs[1..]);
  }

  /** `sort_pairs`, comparing keys. */
  function Sort<T>(name: T -> string, xs: seq<T>): (r: seq<T>)
    ensures multiset(r) == multiset(xs)
    decreases |xs|
  {
    if |xs| <= 1 then xs
    else
      var (left, right) := SplitPairs([], [], xs);
      MergePairs(name, Sort(name, left), Sort(name, right))
  }

  lemma {:induction false} SortSorts<T>(name: T -> string, xs: seq<T>)
    ensures SortedBy(name, Sort(name, xs))
    decreases |xs|
  {
    if |xs| > 1 {
      var (left, right) := SplitPairs([], [], xs);
      SortSorts(name, left);
      SortSorts(name, right);
      MergeSorted(name, Sort(name, left), Sort(name, right));
    }
  }

  /** `sort_pairs String.compare`: strings sorted by themselves. */
  function SortStrings(xs: seq<string>): (r: seq<string>)
    ensures multiset(r) == multiset(xs)
  {
    Sort(Itself, xs)
  }

  /** Sorting forgets the order and nothing else. */
  lemma SortCanonical(xs: seq<string>, ys: seq<string>)
    ensures SortStrings(xs) == SortStrings(ys) <==> multiset(xs) == multiset(ys)
  {
    SortSorts(Itself, xs);
    SortSorts(Itself, ys);
    if multiset(xs) == multiset(ys) {
      SortedUnique(Sort(Itself, xs), Sort(Itself, ys));
    }
  }
}
