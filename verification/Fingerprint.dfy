/** The text a statement's fingerprint hashes, and why it names exactly the
    alpha-equivalent statements. */
module Fingerprint {
  import opened Collections
  import opened Text
  import opened HolTerms

  // ---- the encoders, which build the text in reverse --------------------------

  function Reversed(pieces: seq<string>): seq<string> {
    if pieces == [] then [] else Reversed(pieces[1..]) + [pieces[0]]
  }

  /** `push`: the newest piece is first. */
  function Push(pieces: seq<string>, acc: seq<string>): seq<string> {
    Reversed(pieces) + acc
  }

  function EncodeType(ty: Type, acc: seq<string>): seq<string>
    decreases ty, 0
  {
    match ty
    case TyVar(name) => Push(["v", Frame(name)], acc)
    case TyOp(thy, op, args) =>
      EncodeTypes(args, Push(["t", Frame(thy), Frame(op), Decimal(|args|), ":"], acc))
  }

  function EncodeTypes(tys: seq<Type>, acc: seq<string>): seq<string>
    decreases tys, 0
  {
    if tys == [] then acc else EncodeTypes(tys[1..], EncodeType(tys[0], acc))
  }

  function EncodeTerm(bound: seq<Variable>, t: Term, acc: seq<string>): seq<string>
    decreases t
  {
    match t
    case Const(thy, name, ty) => EncodeType(ty, Push(["c", Frame(thy), Frame(name)], acc))
    case Var(v) =>
      (match IndexOf(v, bound)
       case At(i) => Push(["b", Decimal(i), ":"], acc)
       case Unbound => EncodeType(v.ty, Push(["f", Frame(v.name)], acc)))
    case Comb(f, x) => EncodeTerm(bound, x, EncodeTerm(bound, f, ["a"] + acc))
    case Lamb(v, body) => EncodeTerm([v] + bound, body, EncodeType(v.ty, ["l"] + acc))
  }

  function Encoded(t: Term): string {
    Concat(Reversed(EncodeTerm([], t, [])))
  }

  function EncodedAll(ts: seq<Term>): (r: seq<string>)
    ensures |r| == |ts|
  {
    if ts == [] then [] else [Encoded(ts[0])] + EncodedAll(ts[1..])
  }

  const TITLE := "holbuild-fingerprint-v1\n"

  /** What `sequent` gives to the hash. */
  function SequentText(hyps: seq<Term>, concl: Term): string {
    Concat([TITLE, Decimal(|hyps|), ":"] + SortStrings(EncodedAll(hyps)) + [Encoded(concl)])
  }

  // ---- the same texts written forwards, each before the text that follows it --------

  function Numbered(n: nat, rest: string): string {
    Decimal(n) + (":" + rest)
  }

  function TypeText(ty: Type, rest: string): string
    decreases ty, 0
  {
    match ty
    case TyVar(name) => "v" + (Frame(name) + rest)
    case TyOp(thy, op, args) => "t" + (Frame(thy) + (Frame(op) + Numbered(|args|, TypesText(args, rest))))
  }

  function TypesText(tys: seq<Type>, rest: string): string
    decreases tys, 0
  {
    if tys == [] then rest else TypeText(tys[0], TypesText(tys[1..], rest))
  }

  function NamelessText(n: Nameless, rest: string): string
    decreases n
  {
    match n
    case NConst(thy, name, ty) => "c" + (Frame(thy) + (Frame(name) + TypeText(ty, rest)))
    case NBound(i) => "b" + Numbered(i, rest)
    case NFree(v) => "f" + (Frame(v.name) + TypeText(v.ty, rest))
    case NComb(f, x) => "a" + NamelessText(f, NamelessText(x, rest))
    case NLamb(ty, body) => "l" + TypeText(ty, NamelessText(body, rest))
  }

  /** What an accumulator says, reversed and joined, before `rest`. */
  function Spelled(acc: seq<string>, rest: string): string {
    if acc == [] then rest else Spelled(acc[1..], acc[0] + rest)
  }

  lemma {:induction false} SpelledConcat(acc: seq<string>, rest: string)
    ensures Spelled(acc, rest) == Concat(Reversed(acc)) + rest
  {
    if acc != [] {
      SpelledConcat(acc[1..], acc[0] + rest);
      ConcatAppend(Reversed(acc[1..]), [acc[0]]);
      assert Concat([acc[0]]) == acc[0];
      Associative(Concat(Reversed(acc[1..])), acc[0], rest);
    }
  }

  lemma Associative(a: string, b: string, c: string)
    ensures a + b + c == a + (b + c)
  {}

  lemma SpelledCons(piece: string, acc: seq<string>, rest: string)
    ensures Spelled([piece] + acc, rest) == Spelled(acc, piece + rest)
  {
    assert ([piece] + acc)[1..] == acc;
  }

  lemma PushCons(piece: string, pieces: seq<string>, acc: seq<string>)
    ensures Push([piece] + pieces, acc) == Push(pieces, [piece] + acc)
  {
    assert ([piece] + pieces)[1..] == pieces;
  }

  lemma SpelledTwo(a: string, b: string, acc: seq<string>, rest: string)
    ensures Spelled(Push([a, b], acc), rest) == Spelled(acc, a + (b + rest))
  {
    assert [a, b][1..] == [b];
    assert Reversed([b]) == [b];
    assert Push([a, b], acc) == [b] + ([a] + acc);
    SpelledCons(b, [a] + acc, rest);
    SpelledCons(a, acc, b + rest);
  }

  lemma SpelledThree(a: string, b: string, c: string, acc: seq<string>, rest: string)
    ensures Spelled(Push([a, b, c], acc), rest) == Spelled(acc, a + (b + (c + rest)))
  {
    assert [a, b, c][1..] == [b, c];
    assert Push([a, b, c], acc) == Push([b, c], [a] + acc);
    SpelledTwo(b, c, [a] + acc, rest);
    SpelledCons(a, acc, b + (c + rest));
  }

  lemma SpelledFive(a: string, b: string, c: string, d: string, e: string, acc: seq<string>, rest: string)
    ensures Spelled(Push([a, b, c, d, e], acc), rest) == Spelled(acc, a + (b + (c + (d + (e + rest)))))
  {
    PushCons(a, [b, c, d, e], acc);
    PushCons(b, [c, d, e], [a] + acc);
    assert [a] + [b, c, d, e] == [a, b, c, d, e] && [b] + [c, d, e] == [b, c, d, e];
    SpelledThree(c, d, e, [b] + ([a] + acc), rest);
    SpelledCons(b, [a] + acc, c + (d + (e + rest)));
    SpelledCons(a, acc, b + (c + (d + (e + rest))));
  }

  lemma {:induction false} TypeSpelled(ty: Type, acc: seq<string>, rest: string)
    ensures Spelled(EncodeType(ty, acc), rest) == Spelled(acc, TypeText(ty, rest))
    decreases ty, 0
  {
    match ty
    case TyVar(name) =>
      SpelledTwo("v", Frame(name), acc, rest);
    case TyOp(thy, op, args) =>
      TypesSpelled(args, Push(["t", Frame(thy), Frame(op), Decimal(|args|), ":"], acc), rest);
      SpelledFive("t", Frame(thy), Frame(op), Decimal(|args|), ":", acc, TypesText(args, rest));
  }

  lemma {:induction false} TypesSpelled(tys: seq<Type>, acc: seq<string>, rest: string)
    ensures Spelled(EncodeTypes(tys, acc), rest) == Spelled(acc, TypesText(tys, rest))
    decreases tys, 0
  {
    if tys != [] {
      TypeSpelled(tys[0], acc, TypesText(tys[1..], rest));
      TypesSpelled(tys[1..], EncodeType(tys[0], acc), rest);
    }
  }

  /** The reversed encoder writes, after what it was given, the text of the
      term's nameless form. */
  lemma {:induction false} TermSpelled(bound: seq<Variable>, t: Term, acc: seq<string>, rest: string)
    ensures Spelled(EncodeTerm(bound, t, acc), rest) == Spelled(acc, NamelessText(ToNameless(bound, t), rest))
    decreases t
  {
    match t
    case Const(thy, name, ty) =>
      TypeSpelled(ty, Push(["c", Frame(thy), Frame(name)], acc), rest);
      SpelledThree("c", Frame(thy), Frame(name), acc, TypeText(ty, rest));
    case Var(v) =>
      match IndexOf(v, bound) {
        case At(i) =>
          SpelledThree("b", Decimal(i), ":", acc, rest);
        case Unbound =>
          TypeSpelled(v.ty, Push(["f", Frame(v.name)], acc), rest);
          SpelledTwo("f", Frame(v.name), acc, TypeText(v.ty, rest));
      }
    case Comb(f, x) =>
      var n := ToNameless(bound, x);
      TermSpelled(bound, x, EncodeTerm(bound, f, ["a"] + acc), rest);
      TermSpelled(bound, f, ["a"] + acc, NamelessText(n, rest));
      SpelledCons("a", acc, NamelessText(ToNameless(bound, f), NamelessText(n, rest)));
    case Lamb(v, body) =>
      var n := ToNameless([v] + bound, body);
      TermSpelled([v] + bound, body, EncodeType(v.ty, ["l"] + acc), rest);
      TypeSpelled(v.ty, ["l"] + acc, NamelessText(n, rest));
      SpelledCons("l", acc, TypeText(v.ty, NamelessText(n, rest)));
  }

  lemma EncodedText(t: Term, rest: string)
    ensures Encoded(t) + rest == NamelessText(ToNameless([], t), rest)
  {
    TermSpelled([], t, [], rest);
    SpelledConcat(EncodeTerm([], t, []), rest);
  }

  // ---- the texts are a prefix code -----------------------------------------------

  /** Texts that agree agree on their first letter and on the rest. */
  lemma Letter(c: char, d: char, x: string, y: string)
    requires [c] + x == [d] + y
    ensures c == d && x == y
  {
    assert x == ([c] + x)[1..] && y == ([d] + y)[1..];
    assert c == ([c] + x)[0] && d == ([d] + y)[0];
  }

  lemma NumberedPrefix(m: nat, n: nat, r: string, s: string)
    requires Numbered(m, r) == Numbered(n, s)
    ensures m == n && r == s
  {
    Associative(Decimal(m), ":", r);
    Associative(Decimal(n), ":", s);
    DecimalPrefix(m, n, r, s);
  }

  function TypeLetter(ty: Type): char {
    if ty.TyVar? then 'v' else 't'
  }

  function TypeBody(ty: Type, rest: string): string {
    match ty
    case TyVar(name) => Frame(name) + rest
    case TyOp(thy, op, args) => Frame(thy) + (Frame(op) + Numbered(|args|, TypesText(args, rest)))
  }

  lemma {:induction false} TypePrefix(a: Type, b: Type, r: string, s: string)
    requires TypeText(a, r) == TypeText(b, s)
    ensures a == b && r == s
    decreases a, 0
  {
    Letter(TypeLetter(a), TypeLetter(b), TypeBody(a, r), TypeBody(b, s));
    match (a, b) {
      case (TyVar(n), TyVar(m)) =>
        FramePrefix(n, m, r, s);
      case (TyOp(thy, op, args), TyOp(thy', op', args')) =>
        var x, y := TypesText(args, r), TypesText(args', s);
        FramePrefix(thy, thy', Frame(op) + Numbered(|args|, x), Frame(op') + Numbered(|args'|, y));
        FramePrefix(op, op', Numbered(|args|, x), Numbered(|args'|, y));
        NumberedPrefix(|args|, |args'|, x, y);
        TypesPrefix(args, args', r, s);
    }
  }

  lemma {:induction false} TypesPrefix(xs: seq<Type>, ys: seq<Type>, r: string, s: string)
    requires |xs| == |ys|
    requires TypesText(xs, r) == TypesText(ys, s)
    ensures xs == ys && r == s
    decreases xs, 0
  {
    if xs != [] {
      TypePrefix(xs[0], ys[0], TypesText(xs[1..], r), TypesText(ys[1..], s));
      TypesPrefix(xs[1..], ys[1..], r, s);
      assert xs == [xs[0]] + xs[1..] && ys == [ys[0]] + ys[1..];
    }
  }

  function NamelessLetter(n: Nameless): char {
    match n
    case NConst(_, _, _) => 'c'
    case NBound(_) => 'b'
    case NFree(_) => 'f'
    case NComb(_, _) => 'a'
    case NLamb(_, _) => 'l'
  }

  function NamelessBody(n: Nameless, rest: string): string {
    match n
    case NConst(thy, name, ty) => Frame(thy) + (Frame(name) + TypeText(ty, rest))
    case NBound(i) => Numbered(i, rest)
    case NFree(v) => Frame(v.name) + TypeText(v.ty, rest)
    case NComb(f, x) => NamelessText(f, NamelessText(x, rest))
    case NLamb(ty, body) => TypeText(ty, NamelessText(body, rest))
  }

  /** No encoding of a nameless term begins another one's, so what follows
      cannot be mistaken for part of it. */
  lemma {:induction false} NamelessPrefix(m: Nameless, n: Nameless, r: string, s: string)
    requires NamelessText(m, r) == NamelessText(n, s)
    ensures m == n && r == s
    decreases m
  {
    Letter(NamelessLetter(m), NamelessLetter(n), NamelessBody(m, r), NamelessBody(n, s));
    match (m, n) {
      case (NConst(thy, name, ty), NConst(thy', name', ty')) =>
        FramePrefix(thy, thy', Frame(name) + TypeText(ty, r), Frame(name') + TypeText(ty', s));
        FramePrefix(name, name', TypeText(ty, r), TypeText(ty', s));
        TypePrefix(ty, ty', r, s);
      case (NBound(i), NBound(j)) =>
        NumberedPrefix(i, j, r, s);
      case (NFree(v), NFree(w)) =>
        FramePrefix(v.name, w.name, TypeText(v.ty, r), TypeText(w.ty, s));
        TypePrefix(v.ty, w.ty, r, s);
      case (NComb(f, x), NComb(g, y)) =>
        NamelessPrefix(f, g, NamelessText(x, r), NamelessText(y, s));
        NamelessPrefix(x, y, r, s);
      case (NLamb(ty, body), NLamb(ty', other)) =>
        TypePrefix(ty, ty', NamelessText(body, r), NamelessText(other, s));
        NamelessPrefix(body, other, r, s);
    }
  }

  /** Two terms are written alike exactly when they are alpha-equivalent, and
      whatever is written after them cannot change that. */
  lemma EncodedIffAlpha(t: Term, u: Term, r: string, s: string)
    ensures Encoded(t) + r == Encoded(u) + s <==> Alpha(t, u) && r == s
    ensures Encoded(t) == Encoded(u) <==> Alpha(t, u)
  {
    EncodedText(t, r);
    EncodedText(u, s);
    EncodedText(t, "");
    EncodedText(u, "");
    assert Encoded(t) + "" == Encoded(t) && Encoded(u) + "" == Encoded(u);
    AlphaIsNamelessEquality(t, u);
    if Encoded(t) + r == Encoded(u) + s {
      NamelessPrefix(ToNameless([], t), ToNameless([], u), r, s);
    }
    if Encoded(t) == Encoded(u) {
      NamelessPrefix(ToNameless([], t), ToNameless([], u), "", "");
    }
  }

  // ---- sequents --------------------------------------------------------------------

  /** The terms pair off, each with one alpha-equivalent to it. */
  ghost predicate MatchUpToAlpha(xs: seq<Term>, ys: seq<Term>) {
    if xs == [] then ys == []
    else exists i: nat :: i < |ys| && Alpha(xs[0], ys[i]) && MatchUpToAlpha(xs[1..], Without(ys, i))
  }

  lemma {:induction false} EncodedAllAt(ts: seq<Term>, i: nat)
    requires i < |ts|
    ensures EncodedAll(ts)[i] == Encoded(ts[i])
    ensures EncodedAll(Without(ts, i)) == Without(EncodedAll(ts), i)
  {
    if i == 0 {
      assert Without(ts, 0) == ts[1..];
      assert Without(EncodedAll(ts), 0) == EncodedAll(ts)[1..] == EncodedAll(ts[1..]);
    } else {
      EncodedAllAt(ts[1..], i - 1);
      assert Without(ts, i) == [ts[0]] + Without(ts[1..], i - 1);
      assert Without(EncodedAll(ts), i) == [Encoded(ts[0])] + Without(EncodedAll(ts[1..]), i - 1);
    }
  }

  lemma MultisetStep(es: seq<string>, fs: seq<string>, i: nat)
    requires es != [] && i < |fs| && es[0] == fs[i]
    ensures multiset(es) == multiset(fs) <==> multiset(es[1..]) == multiset(Without(fs, i))
  {
    TakeOut(fs, i);
    assert es == [es[0]] + es[1..];
    assert multiset(es) == multiset{es[0]} + multiset(es[1..]);
    assert multiset(es[1..]) == multiset(es) - multiset{es[0]};
    assert multiset(Without(fs, i)) == multiset(fs) - multiset{fs[i]};
  }

  /** One step of pairing off, seen in the encodings. */
  lemma MatchStep(xs: seq<Term>, ys: seq<Term>, i: nat)
    requires xs != [] && i < |ys|
    ensures Alpha(xs[0], ys[i]) ==>
            (multiset(EncodedAll(xs)) == multiset(EncodedAll(ys)) <==>
             multiset(EncodedAll(xs[1..])) == multiset(EncodedAll(Without(ys, i))))
  {
    EncodedIffAlpha(xs[0], ys[i], "", "");
    EncodedAllAt(ys, i);
    if Alpha(xs[0], ys[i]) {
      MultisetStep(EncodedAll(xs), EncodedAll(ys), i);
    }
  }

  lemma {:induction false} MatchIffSameEncodings(xs: seq<Term>, ys: seq<Term>)
    ensures MatchUpToAlpha(xs, ys) <==> multiset(EncodedAll(xs)) == multiset(EncodedAll(ys))
    decreases |xs|
  {
    var es, fs := EncodedAll(xs), EncodedAll(ys);
    assert |multiset(es)| == |es| && |multiset(fs)| == |fs|;
    if xs != [] {
      forall i: nat | i < |ys|
        ensures Alpha(xs[0], ys[i]) ==> (MatchUpToAlpha(xs[1..], Without(ys, i)) <==> multiset(es) == multiset(fs))
      {
        MatchIffSameEncodings(xs[1..], Without(ys, i));
        MatchStep(xs, ys, i);
      }
      if multiset(es) == multiset(fs) {
        assert es[0] in multiset(es);
        var i :| 0 <= i < |fs| && fs[i] == es[0];
        EncodedAllAt(ys, i);
        EncodedIffAlpha(xs[0], ys[i], "", "");
        assert Alpha(xs[0], ys[i]) && MatchUpToAlpha(xs[1..], Without(ys, i));
      }
    }
  }

  /** Equally many encodings joined can be taken apart again. */
  lemma {:induction false} EncodingsPrefix(xs: seq<string>, ys: seq<string>, r: string, s: string)
    requires |xs| == |ys|
    requires forall x <- xs :: IsEncoding(x)
    requires forall y <- ys :: IsEncoding(y)
    requires Concat(xs) + r == Concat(ys) + s
    ensures xs == ys && r == s
  {
    if xs != [] {
      assert IsEncoding(xs[0]) && IsEncoding(ys[0]);
      var t :| xs[0] == Encoded(t);
      var u :| ys[0] == Encoded(u);
      Associative(xs[0], Concat(xs[1..]), r);
      Associative(ys[0], Concat(ys[1..]), s);
      EncodedIffAlpha(t, u, Concat(xs[1..]) + r, Concat(ys[1..]) + s);
      EncodingsPrefix(xs[1..], ys[1..], r, s);
      assert xs == [xs[0]] + xs[1..] && ys == [ys[0]] + ys[1..];
    } else {
      assert Concat(xs) + r == r && Concat(ys) + s == s;
    }
  }

  ghost predicate IsEncoding(x: string) {
    exists t :: x == Encoded(t)
  }

  lemma SortedEncodings(ts: seq<Term>)
    ensures |SortStrings(EncodedAll(ts))| == |ts|
    ensures forall x <- SortStrings(EncodedAll(ts)) :: IsEncoding(x)
  {
    var sorted := SortStrings(EncodedAll(ts));
    assert |multiset(sorted)| == |multiset(EncodedAll(ts))|;
    forall x | x in sorted
      ensures IsEncoding(x)
    {
      assert x in multiset(sorted);
      assert x in multiset(EncodedAll(ts));
      var i :| 0 <= i < |ts| && EncodedAll(ts)[i] == x;
      EncodedAllAt(ts, i);
    }
  }

  lemma ConcatCons(piece: string, pieces: seq<string>)
    ensures Concat([piece] + pieces) == piece + Concat(pieces)
  {
    assert ([piece] + pieces)[1..] == pieces;
  }

  lemma JoinSequent(title: string, count: string, middle: seq<string>, last: string)
    ensures Concat([title, count, ":"] + middle + [last]) == title + (count + (":" + (Concat(middle) + last)))
  {
    var rest := middle + [last];
    assert [title, count, ":"] + middle + [last] == [title] + ([count] + ([":"] + rest));
    ConcatCons(title, [count] + ([":"] + rest));
    ConcatCons(count, [":"] + rest);
    ConcatCons(":", rest);
    ConcatAppend(middle, [last]);
    ConcatCons(last, []);
    assert [last] + [] == [last] && last + "" == last;
  }

  lemma SequentSpelled(hyps: seq<Term>, concl: Term)
    ensures SequentText(hyps, concl) ==
            TITLE + Numbered(|hyps|, Concat(SortStrings(EncodedAll(hyps))) + Encoded(concl))
  {
    JoinSequent(TITLE, Decimal(|hyps|), SortStrings(EncodedAll(hyps)), Encoded(concl));
  }

  /** Two sequents are hashed from one text exactly when their conclusions are
      alpha-equivalent and their hypotheses pair off up to alpha-equivalence. */
  lemma FingerprintIdentifiesStatements(hyps: seq<Term>, concl: Term, hyps': seq<Term>, concl': Term)
    ensures SequentText(hyps, concl) == SequentText(hyps', concl') <==>
            Alpha(concl, concl') && MatchUpToAlpha(hyps, hyps')
  {
    var xs, ys := SortStrings(EncodedAll(hyps)), SortStrings(EncodedAll(hyps'));
    SequentSpelled(hyps, concl);
    SequentSpelled(hyps', concl');
    EncodedIffAlpha(concl, concl', "", "");
    MatchIffSameEncodings(hyps, hyps');
    SortCanonical(EncodedAll(hyps), EncodedAll(hyps'));
    if SequentText(hyps, concl) == SequentText(hyps', concl') {
      var r, s := Concat(xs) + Encoded(concl), Concat(ys) + Encoded(concl');
      DropTitle(Numbered(|hyps|, r), Numbered(|hyps'|, s));
      NumberedPrefix(|hyps|, |hyps'|, r, s);
      SortedEncodings(hyps);
      SortedEncodings(hyps');
      EncodingsPrefix(xs, ys, Encoded(concl), Encoded(concl'));
    }
    if Alpha(concl, concl') && MatchUpToAlpha(hyps, hyps') {
      assert |multiset(EncodedAll(hyps))| == |multiset(EncodedAll(hyps'))|;
    }
  }

  lemma DropTitle(x: string, y: string)
    requires TITLE + x == TITLE + y
    ensures x == y
  {
    assert x == (TITLE + x)[|TITLE|..] && y == (TITLE + y)[|TITLE|..];
  }
}
