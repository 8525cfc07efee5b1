/** Sequences without an element, maps over sequences, and the sizes of sets. */
module Collections {

  function Without<T>(xs: seq<T>, i: nat): seq<T>
    requires i < |xs|
  {
    xs[..i] + xs[i + 1..]
  }

  lemma WithoutAt<T>(xs: seq<T>, i: nat)
    requires i < |xs|
    ensures |Without(xs, i)| == |xs| - 1
    ensures forall k | 0 <= k < |xs| - 1 :: Without(xs, i)[k] == xs[if k < i then k else k + 1]
  {}

  lemma TakeOut<T>(xs: seq<T>, i: nat)
    requires i < |xs|
    ensures multiset(Without(xs, i)) == multiset(xs) - multiset{xs[i]}
    ensures multiset(xs) == multiset(Without(xs, i)) + multiset{xs[i]}
  {
    var a, b := xs[..i], xs[i + 1..];
    assert xs == a + ([xs[i]] + b);
    assert multiset(xs) == multiset(a) + (multiset{xs[i]} + multiset(b));
  }

  /** What `f` gives for each element, in order. */
  function FlatMap<A, B>(f: A -> seq<B>, xs: seq<A>): seq<B> {
    if xs == [] then [] else f(xs[0]) + FlatMap(f, xs[1..])
  }

  lemma FlatMapOne<A, B>(f: A -> seq<B>, x: A)
    ensures FlatMap(f, [x]) == f(x)
  {
    assert FlatMap(f, [x]) == f(x) + FlatMap(f, []);
  }

  lemma {:induction false} FlatMapFrom<A, B>(f: A -> seq<B>, xs: seq<A>, y: B) returns (x: A)
    requires y in FlatMap(f, xs)
    ensures x in xs && y in f(x)
  {
    if y in f(xs[0]) {
      x := xs[0];
    } else {
      x := FlatMapFrom(f, xs[1..], y);
    }
  }

  lemma {:induction false} FlatMapHas<A, B>(f: A -> seq<B>, xs: seq<A>, x: A, y: B)
    requires x in xs && y in f(x)
    ensures y in FlatMap(f, xs)
  {
    if x != xs[0] { FlatMapHas(f, xs[1..], x, y); }
  }

  lemma ProperSubset<T>(small: set<T>, big: set<T>)
    requires small <= big && small != big
    ensures |small| < |big|
  {
    var x :| x in big && x !in small;
    assert small <= big - {x};
    SubsetSize(small, big - {x});
  }

  lemma {:induction false} SubsetSize<T>(small: set<T>, big: set<T>)
    requires small <= big
    ensures |small| <= |big|
    decreases small
  {
    if small != {} {
      var x :| x in small;
      SubsetSize(small - {x}, big - {x});
    }
  }

  // ------------------------------------------------------------ maps over sequences

  function Map<A, B>(f: A -> B, xs: seq<A>): (ys: seq<B>)
    ensures |ys| == |xs| && forall i | 0 <= i < |xs| :: ys[i] == f(xs[i])
  {
    if xs == [] then [] else [f(xs[0])] + Map(f, xs[1..])
  }

  lemma MapTakeOut<A, B>(f: A -> B, xs: seq<A>, i: nat)
    requires i < |xs|
    ensures Map(f, Without(xs, i)) == Without(Map(f, xs), i)
  {
    WithoutAt(xs, i);
    WithoutAt(Map(f, xs), i);
    hide Without, Map;
    var a, b := Map(f, Without(xs, i)), Without(Map(f, xs), i);
    assert |a| == |b| && forall k | 0 <= k < |a| :: a[k] == b[k];
  }

  lemma Empty<A>(xs: seq<A>, ys: seq<A>)
    requires multiset(xs) == multiset(ys) && xs == []
    ensures ys == []
  {
    assert |multiset(ys)| == |ys|;
  }

  lemma {:induction false} MapOfPermutation<A, B>(f: A -> B, xs: seq<A>, ys: seq<A>)
    requires multiset(xs) == multiset(ys)
    ensures multiset(Map(f, xs)) == multiset(Map(f, ys))
    decreases |xs|
  {
    if xs == [] {
      Empty(xs, ys);
    } else {
      assert xs[0] in multiset(ys);
      var j :| 0 <= j < |ys| && ys[j] == xs[0];
      TakeOut(xs, 0);
      TakeOut(ys, j);
      MapOfPermutation(f, Without(xs, 0), Without(ys, j));
      PutBack(f, xs, 0);
      PutBack(f, ys, j);
    }
  }

  lemma PutBack<A, B>(f: A -> B, xs: seq<A>, i: nat)
    requires i < |xs|
    ensures multiset(Map(f, xs)) == multiset(Map(f, Without(xs, i))) + multiset{f(xs[i])}
  {
    MapTakeOut(f, xs, i);
    TakeOut(Map(f, xs), i);
  }

  /** Elements of two lists with one image are one element. */
  ghost predicate TellsApart<A, B>(f: A -> B, xs: seq<A>, ys: seq<A>) {
    forall x <- xs, y <- ys :: f(x) == f(y) ==> x == y
  }

  lemma StillTellsApart<A, B>(f: A -> B, xs: seq<A>, i: nat, ys: seq<A>, j: nat)
    requires TellsApart(f, xs, ys) && i < |xs| && j < |ys|
    ensures TellsApart(f, Without(xs, i), Without(ys, j))
  {
    assert forall x <- Without(xs, i) :: x in xs;
    assert forall y <- Without(ys, j) :: y in ys;
  }

  /** A map that tells elements apart tells multisets apart. */
  lemma {:induction false} PermutationOfMap<A, B>(f: A -> B, xs: seq<A>, ys: seq<A>)
    requires TellsApart(f, xs, ys)
    requires multiset(Map(f, xs)) == multiset(Map(f, ys))
    ensures multiset(xs) == multiset(ys)
    decreases |xs|
  {
    hide Without;
    if xs == [] {
      Empty(Map(f, xs), Map(f, ys));
    } else {
      assert Map(f, xs)[0] in multiset(Map(f, ys));
      var j :| 0 <= j < |ys| && Map(f, ys)[j] == f(xs[0]);
      PutBack(f, xs, 0);
      PutBack(f, ys, j);
      Cancel(multiset(Map(f, Without(xs, 0))), multiset(Map(f, Without(ys, j))), f(xs[0]));
      TakeOut(xs, 0);
      StillTellsApart(f, xs, 0, ys, j);
      assert xs[0] in xs && ys[j] in ys;
      PermutationOfMap(f, Without(xs, 0), Without(ys, j));
      TakeOut(ys, j);
    }
  }

  lemma Cancel<A>(a: multiset<A>, b: multiset<A>, x: A)
    requires a + multiset{x} == b + multiset{x}
    ensures a == b
  {
    assert a == (a + multiset{x}) - multiset{x};
  }

  lemma SameMultisets<A, B>(f: A -> B, xs: seq<A>, ys: seq<A>)
    requires TellsApart(f, xs, ys)
    ensures multiset(Map(f, xs)) == multiset(Map(f, ys)) <==> multiset(xs) == multiset(ys)
  {
    if multiset(xs) == multiset(ys) { MapOfPermutation(f, xs, ys); }
    if multiset(Map(f, xs)) == multiset(Map(f, ys)) { PermutationOfMap(f, xs, ys); }
  }

  lemma SameLists<A, B>(f: A -> B, xs: seq<A>, ys: seq<A>)
    requires TellsApart(f, xs, ys)
    ensures Map(f, xs) == Map(f, ys) <==> xs == ys
  {
    if Map(f, xs) == Map(f, ys) {
      assert |xs| == |Map(f, xs)| == |ys|;
      assert forall i | 0 <= i < |xs| :: f(xs[i]) == f(ys[i]) && xs[i] in xs && ys[i] in ys;
    }
  }
}
