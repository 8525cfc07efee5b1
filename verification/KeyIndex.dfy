/** The planner's indexes: vectors sorted by key, searched by halves. */
module KeyIndex {
  import opened Wrappers
  import opened Text

  type Key = string
  type Index<T> = seq<(Key, T)>

  function KeyOf<T>(entry: (Key, T)): Key {
    entry.0
  }

  /** `dependency_pairs_from`, and the end of `build_key_index`. */
  function FromPairs<T>(pairs: seq<(Key, T)>): (index: Index<T>)
    ensures multiset(index) == multiset(pairs)
  {
    Sort(KeyOf, pairs)
  }

  function Enumerated(keys: seq<Key>): seq<(Key, nat)> {
    seq(|keys|, i requires 0 <= i < |keys| => (keys[i], i))
  }

  function BuildKeyIndex(keys: seq<Key>): Index<nat> {
    FromPairs(Enumerated(keys))
  }

  /** The search of `find_key_id`, `graph_values` and `indexed_nodes_named`. */
  function Search<T>(index: Index<T>, wanted: Key, lo: int, hi: int): Option<T>
    requires 0 <= lo && hi < |index|
    decreases hi - lo + 1
  {
    if lo > hi then None
    else
      var mid := (lo + hi) / 2;
      var (candidate, value) := index[mid];
      if wanted == candidate then Some(value)
      else if AtMost(wanted, candidate) then Search(index, wanted, lo, mid - 1)
      else Search(index, wanted, mid + 1, hi)
  }

  function Find<T>(index: Index<T>, wanted: Key): Option<T> {
    Search(index, wanted, 0, |index| - 1)
  }

  ghost predicate Distinct<T>(pairs: seq<(Key, T)>) {
    forall i, j | 0 <= i < j < |pairs| :: pairs[i].0 != pairs[j].0
  }

  /** The search misses nothing in its range. */
  lemma {:induction false} SearchFinds<T>(index: Index<T>, wanted: Key, lo: int, hi: int)
    requires 0 <= lo && hi < |index| && SortedBy(KeyOf, index)
    ensures match Search(index, wanted, lo, hi)
            case Some(value) => exists i | lo <= i <= hi :: index[i] == (wanted, value)
            case None => forall i | lo <= i <= hi :: index[i].0 != wanted
    decreases hi - lo + 1
  {
    if lo <= hi {
      var mid := (lo + hi) / 2;
      var candidate := index[mid].0;
      if wanted == candidate {
        assert index[mid] == (wanted, index[mid].1);
      } else if AtMost(wanted, candidate) {
        SearchFinds(index, wanted, lo, mid - 1);
        forall i | mid < i <= hi
          ensures index[i].0 != wanted
        {
          assert AtMost(KeyOf(index[mid]), KeyOf(index[i]));
          if index[i].0 == wanted { AtMostAntisymmetric(wanted, candidate); }
        }
      } else {
        SearchFinds(index, wanted, mid + 1, hi);
        forall i | lo <= i < mid
          ensures index[i].0 != wanted
        {
          assert AtMost(KeyOf(index[i]), KeyOf(index[mid]));
        }
      }
    }
  }

  lemma SameElements<E>(xs: seq<E>, ys: seq<E>, e: E)
    requires multiset(xs) == multiset(ys)
    ensures e in xs <==> e in ys
  {
    assert e in multiset(xs) <==> e in multiset(ys);
  }

  /** What a search of an index answers was put in it, under that key; and no answer
      means the key was not. */
  lemma FindSound<T>(pairs: seq<(Key, T)>, wanted: Key)
    ensures match Find(FromPairs(pairs), wanted)
            case Some(value) => (wanted, value) in pairs
            case None => forall value: T :: (wanted, value) !in pairs
  {
    var index := FromPairs(pairs);
    SortSorts(KeyOf, pairs);
    SearchFinds(index, wanted, 0, |index| - 1);
    hide Search, Sort, SortedBy;
    match Find(index, wanted)
    case Some(value) => SameElements(index, pairs, (wanted, value));
    case None =>
      forall value: T
        ensures (wanted, value) !in pairs
      {
        SameElements(index, pairs, (wanted, value));
      }
  }

  /** Whatever order the pairs come in, an index answers each key with its own value. */
  lemma IndexIsMap<T>(pairs: seq<(Key, T)>, wanted: Key, value: T)
    requires Distinct(pairs)
    ensures Find(FromPairs(pairs), wanted) == Some(value) <==> (wanted, value) in pairs
  {
    FindSound(pairs, wanted);
    hide Find;
    if (wanted, value) in pairs {
      var i :| 0 <= i < |pairs| && pairs[i] == (wanted, value);
      match Find(FromPairs(pairs), wanted)
      case Some(found) =>
        var j :| 0 <= j < |pairs| && pairs[j] == (wanted, found);
      case None =>
    }
  }

  ghost predicate AllDistinct(keys: seq<Key>) {
    forall i, j | 0 <= i < j < |keys| :: keys[i] != keys[j]
  }

  /** A key index gives each key its position, and other keys none. */
  lemma KeyIdIsPosition(keys: seq<Key>, key: Key, id: nat)
    requires AllDistinct(keys)
    ensures Find(BuildKeyIndex(keys), key) == Some(id) <==> id < |keys| && keys[id] == key
  {
    var pairs := Enumerated(keys);
    assert Distinct(pairs);
    IndexIsMap(pairs, key, id);
    if id < |keys| && keys[id] == key { assert pairs[id] == (key, id); }
  }
}
