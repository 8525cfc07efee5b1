/** HOL terms as the kernel's `dest_term` shows them, and what it means for two
    of them to be alpha-equivalent: an account by renaming to a fresh variable,
    which knows nothing of the fingerprint's encoding. */
module HolTerms {

  datatype Type = TyVar(name: string) | TyOp(thy: string, op: string, args: seq<Type>)

  /** A variable is its name and its type: two of the same name differ by type. */
  datatype Variable = Variable(name: string, ty: Type)

  datatype Term =
    | Const(thy: string, name: string, ty: Type)
    | Var(v: Variable)
    | Comb(f: Term, x: Term)
    | Lamb(binder: Variable, body: Term)

  function Size(t: Term): nat {
    match t
    case Const(_, _, _) => 1
    case Var(_) => 1
    case Comb(f, x) => 1 + Size(f) + Size(x)
    case Lamb(_, body) => 1 + Size(body)
  }

  /** Every variable written in a term, binders included. */
  function Variables(t: Term): set<Variable> {
    match t
    case Const(_, _, _) => {}
    case Var(v) => {v}
    case Comb(f, x) => Variables(f) + Variables(x)
    case Lamb(v, body) => {v} + Variables(body)
  }

  function SwapVariable(a: Variable, b: Variable, v: Variable): Variable {
    if v == a then b else if v == b then a else v
  }

  /** Exchange two variables everywhere, binders included. */
  function Swap(a: Variable, b: Variable, t: Term): (r: Term)
    ensures Size(r) == Size(t)
  {
    match t
    case Const(_, _, _) => t
    case Var(v) => Var(SwapVariable(a, b, v))
    case Comb(f, x) => Comb(Swap(a, b, f), Swap(a, b, x))
    case Lamb(v, body) => Lamb(SwapVariable(a, b, v), Swap(a, b, body))
  }

  ghost predicate Fresh(z: Variable, s: Term, t: Term) {
    z !in Variables(s) && z !in Variables(t)
  }

  /** Alpha-equivalence: abstractions agree when their bodies do once both
      bound variables are exchanged with one that is new to both. */
  ghost predicate Alpha(s: Term, t: Term)
    decreases Size(s)
  {
    match (s, t)
    case (Const(_, _, _), Const(_, _, _)) => s == t
    case (Var(v), Var(w)) => v == w
    case (Comb(f, x), Comb(g, y)) => Alpha(f, g) && Alpha(x, y)
    case (Lamb(v, body), Lamb(w, other)) =>
      v.ty == w.ty &&
      exists z: Variable :: z.ty == v.ty && Fresh(z, s, t) && Alpha(Swap(v, z, body), Swap(w, z, other))
    case _ => false
  }

  // ---- nameless terms -------------------------------------------------------

  /** A term with its bound variables counted from the inside, as the
      fingerprint writes them. */
  datatype Nameless =
    | NConst(thy: string, name: string, ty: Type)
    | NBound(index: nat)
    | NFree(v: Variable)
    | NComb(f: Nameless, x: Nameless)
    | NLamb(ty: Type, body: Nameless)

  datatype Position = Unbound | At(index: nat)

  /** `index_of`: the innermost enclosing binder of this name and type. */
  function IndexOf(v: Variable, bound: seq<Variable>): (r: Position)
    ensures r.Unbound? <==> v !in bound
    ensures r.At? ==> r.index < |bound| && bound[r.index] == v && v !in bound[..r.index]
  {
    if bound == [] then Unbound
    else if bound[0] == v then At(0)
    else
      match IndexOf(v, bound[1..])
      case Unbound => Unbound
      case At(i) =>
        assert bound[..i + 1] == [bound[0]] + bound[1..][..i];
        At(i + 1)
  }

  function ToNameless(bound: seq<Variable>, t: Term): Nameless
    decreases t
  {
    match t
    case Const(thy, name, ty) => NConst(thy, name, ty)
    case Var(v) =>
      (match IndexOf(v, bound)
       case At(i) => NBound(i)
       case Unbound => NFree(v))
    case Comb(f, x) => NComb(ToNameless(bound, f), ToNameless(bound, x))
    case Lamb(v, body) => NLamb(v.ty, ToNameless([v] + bound, body))
  }

  /** Every index points at one of `depth` binders or at one inside. */
  predicate Closed(n: Nameless, depth: nat) {
    match n
    case NConst(_, _, _) => true
    case NBound(i) => i < depth
    case NFree(_) => true
    case NComb(f, x) => Closed(f, depth) && Closed(x, depth)
    case NLamb(_, body) => Closed(body, depth + 1)
  }

  function SwapFree(a: Variable, b: Variable, n: Nameless): Nameless {
    match n
    case NConst(_, _, _) => n
    case NBound(_) => n
    case NFree(v) => NFree(SwapVariable(a, b, v))
    case NComb(f, x) => NComb(SwapFree(a, b, f), SwapFree(a, b, x))
    case NLamb(ty, body) => NLamb(ty, SwapFree(a, b, body))
  }

  /** Bind the free variable `z` at the binder `depth` levels out. */
  function Bind(z: Variable, depth: nat, n: Nameless): Nameless
    decreases n
  {
    match n
    case NConst(_, _, _) => n
    case NBound(_) => n
    case NFree(v) => if v == z then NBound(depth) else n
    case NComb(f, x) => NComb(Bind(z, depth, f), Bind(z, depth, x))
    case NLamb(ty, body) => NLamb(ty, Bind(z, depth + 1, body))
  }

  function FreeVariables(n: Nameless): set<Variable> {
    match n
    case NConst(_, _, _) => {}
    case NBound(_) => {}
    case NFree(v) => {v}
    case NComb(f, x) => FreeVariables(f) + FreeVariables(x)
    case NLamb(_, body) => FreeVariables(body)
  }

  lemma {:induction false} NamelessClosed(bound: seq<Variable>, t: Term)
    ensures Closed(ToNameless(bound, t), |bound|)
    ensures FreeVariables(ToNameless(bound, t)) <= Variables(t)
    ensures forall v <- bound :: v !in FreeVariables(ToNameless(bound, t))
    decreases t
  {
    match t
    case Const(_, _, _) =>
    case Var(_) =>
    case Comb(f, x) =>
      NamelessClosed(bound, f);
      NamelessClosed(bound, x);
    case Lamb(v, body) =>
      NamelessClosed([v] + bound, body);
      forall u | u in bound
        ensures u !in FreeVariables(ToNameless(bound, t))
      {
        assert u in [v] + bound;
      }
  }

  function SwapAll(a: Variable, b: Variable, bound: seq<Variable>): (r: seq<Variable>)
    ensures |r| == |bound|
  {
    if bound == [] then [] else [SwapVariable(a, b, bound[0])] + SwapAll(a, b, bound[1..])
  }

  lemma {:induction false} IndexOfSwap(a: Variable, b: Variable, v: Variable, bound: seq<Variable>)
    ensures IndexOf(SwapVariable(a, b, v), SwapAll(a, b, bound)) == IndexOf(v, bound)
  {
    if bound != [] {
      IndexOfSwap(a, b, v, bound[1..]);
      assert SwapAll(a, b, bound)[1..] == SwapAll(a, b, bound[1..]);
    }
  }

  /** Exchanging two variables of one type in a term and in its binders does no
      more to its nameless form than exchange its free variables. */
  lemma {:induction false} NamelessSwap(a: Variable, b: Variable, bound: seq<Variable>, t: Term)
    requires a.ty == b.ty
    ensures ToNameless(SwapAll(a, b, bound), Swap(a, b, t)) == SwapFree(a, b, ToNameless(bound, t))
    decreases t
  {
    match t
    case Const(_, _, _) =>
    case Var(v) =>
      IndexOfSwap(a, b, v, bound);
    case Comb(f, x) =>
      NamelessSwap(a, b, bound, f);
      NamelessSwap(a, b, bound, x);
    case Lamb(v, body) =>
      NamelessSwap(a, b, [v] + bound, body);
      assert ([v] + bound)[1..] == bound;
      assert SwapAll(a, b, [v] + bound) == [SwapVariable(a, b, v)] + SwapAll(a, b, bound);
  }

  lemma {:induction false} SwapFreeAbsent(a: Variable, b: Variable, n: Nameless)
    requires a !in FreeVariables(n) && b !in FreeVariables(n)
    ensures SwapFree(a, b, n) == n
  {
    match n
    case NComb(f, x) =>
      SwapFreeAbsent(a, b, f);
      SwapFreeAbsent(a, b, x);
    case NLamb(_, body) =>
      SwapFreeAbsent(a, b, body);
    case _ =>
  }

  lemma {:induction false} IndexOfOutermost(v: Variable, bound: seq<Variable>, z: Variable)
    ensures IndexOf(v, bound + [z]) ==
            if v in bound then IndexOf(v, bound) else if v == z then At(|bound|) else Unbound
  {
    if bound == [] {
      assert [] + [z] == [z];
    } else {
      IndexOfOutermost(v, bound[1..], z);
      assert (bound + [z])[1..] == bound[1..] + [z];
      assert (bound + [z])[0] == bound[0];
    }
  }

  /** Adding an outermost binder binds the free variable it names. */
  lemma {:induction false} NamelessBind(bound: seq<Variable>, z: Variable, t: Term)
    ensures ToNameless(bound + [z], t) == Bind(z, |bound|, ToNameless(bound, t))
    decreases t
  {
    match t
    case Const(_, _, _) =>
    case Var(v) =>
      IndexOfOutermost(v, bound, z);
    case Comb(f, x) =>
      NamelessBind(bound, z, f);
      NamelessBind(bound, z, x);
    case Lamb(v, body) =>
      NamelessBind([v] + bound, z, body);
      assert [v] + (bound + [z]) == [v] + bound + [z];
  }

  lemma {:induction false} BindInjective(z: Variable, depth: nat, m: Nameless, n: Nameless)
    requires Closed(m, depth) && Closed(n, depth)
    requires Bind(z, depth, m) == Bind(z, depth, n)
    ensures m == n
    decreases m
  {
    match (m, n)
    case (NComb(f, x), NComb(g, y)) =>
      BindInjective(z, depth, f, g);
      BindInjective(z, depth, x, y);
    case (NLamb(_, body), NLamb(_, other)) =>
      BindInjective(z, depth + 1, body, other);
    case _ =>
  }

  /** The body under its own binder, and with that binder exchanged for a new
      variable, have the same nameless form. */
  lemma RenameBinder(v: Variable, z: Variable, body: Term)
    requires z.ty == v.ty && z !in Variables(body)
    ensures ToNameless([v], body) == Bind(z, 0, ToNameless([], Swap(v, z, body)))
  {
    NamelessSwap(v, z, [v], body);
    NamelessClosed([v], body);
    assert v in [v];
    SwapFreeAbsent(v, z, ToNameless([v], body));
    assert SwapAll(v, z, [v]) == [z];
    NamelessBind([], z, Swap(v, z, body));
    assert [] + [z] == [z];
  }

  function LongestName(vs: seq<Variable>): nat {
    if vs == [] then 0
    else if |vs[0].name| > LongestName(vs[1..]) then |vs[0].name| else LongestName(vs[1..])
  }

  lemma {:induction false} NameBound(vs: seq<Variable>, v: Variable)
    requires v in vs
    ensures |v.name| <= LongestName(vs)
  {
    if v != vs[0] { NameBound(vs[1..], v); }
  }

  lemma {:induction false} Listing(vs: set<Variable>) returns (r: seq<Variable>)
    ensures forall v <- vs :: v in r
    decreases vs
  {
    if vs == {} {
      r := [];
    } else {
      var v :| v in vs;
      var rest := Listing(vs - {v});
      r := [v] + rest;
      forall u | u in vs
        ensures u in r
      {
        if u != v { assert u in vs - {v}; }
      }
    }
  }

  /** There is always a variable of a type that two terms do not use. */
  lemma FreshExists(ty: Type, s: Term, t: Term) returns (z: Variable)
    ensures z.ty == ty && Fresh(z, s, t)
  {
    var vs := Listing(Variables(s) + Variables(t));
    z := Variable(seq(LongestName(vs) + 1, _ => 'z'), ty);
    if z in vs { NameBound(vs, z); }
  }

  /** Two terms are alpha-equivalent exactly when their nameless forms are equal. */
  lemma {:induction false} AlphaIsNamelessEquality(s: Term, t: Term)
    ensures Alpha(s, t) <==> ToNameless([], s) == ToNameless([], t)
    decreases Size(s), 0
  {
    match (s, t)
    case (Comb(f, x), Comb(g, y)) =>
      AlphaIsNamelessEquality(f, g);
      AlphaIsNamelessEquality(x, y);
    case (Lamb(v, body), Lamb(w, other)) =>
      if v.ty == w.ty {
        forall z: Variable | z.ty == v.ty && Fresh(z, s, t)
          ensures Alpha(Swap(v, z, body), Swap(w, z, other)) <==> ToNameless([v], body) == ToNameless([w], other)
        {
          AlphaUnderFresh(v, body, w, other, z);
        }
        var z := FreshExists(v.ty, s, t);
        assert [v] + [] == [v] && [w] + [] == [w];
      }
    case _ =>
  }

  lemma {:induction false} AlphaUnderFresh(v: Variable, body: Term, w: Variable, other: Term, z: Variable)
    requires z.ty == v.ty == w.ty && z !in Variables(body) && z !in Variables(other)
    ensures Alpha(Swap(v, z, body), Swap(w, z, other)) <==> ToNameless([v], body) == ToNameless([w], other)
    decreases Size(body), 1
  {
    var s, t := Swap(v, z, body), Swap(w, z, other);
    AlphaIsNamelessEquality(s, t);
    RenameBinder(v, z, body);
    RenameBinder(w, z, other);
    NamelessClosed([], s);
    NamelessClosed([], t);
    if ToNameless([v], body) == ToNameless([w], other) {
      BindInjective(z, 0, ToNameless([], s), ToNameless([], t));
    }
  }

  /** Alpha-equivalence as defined by renaming is an equivalence. */
  lemma AlphaEquivalence(r: Term, s: Term, t: Term)
    ensures Alpha(s, s)
    ensures Alpha(s, t) ==> Alpha(t, s)
    ensures Alpha(r, s) && Alpha(s, t) ==> Alpha(r, t)
  {
    AlphaIsNamelessEquality(s, s);
    AlphaIsNamelessEquality(s, t);
    AlphaIsNamelessEquality(t, s);
    AlphaIsNamelessEquality(r, s);
    AlphaIsNamelessEquality(r, t);
  }
}
