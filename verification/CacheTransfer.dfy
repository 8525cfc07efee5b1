/** Copying entries from one cache to another: each entry's blobs, then its action. */
module CacheTransfer {
  import opened Wrappers
  import opened Manifest

  type Key = string

  datatype FetchResult = Hit | Miss | Corrupt
  datatype PublishResult = Published | AlreadyPresent | Skipped | Conflict

  /** What a cache holds, as closure sees it. */
  datatype Store = Store(actions: map<Key, string>, blobs: set<Hash>)

  /** Every entry's blobs are there. */
  ghost predicate Closed(s: Store) {
    forall k <- s.actions, h <- LiveBlobs(s.actions[k]) :: h in s.blobs
  }

  datatype Source = Source(getAction: Key -> Option<string>, fetchBlob: Hash -> FetchResult)

  /** A destination: it may refuse or skip any request, as `answer` says of each in
      turn, and the copying process is stopped once `left` requests were made. */
  class Destination {
    var store: Store
    var requests: nat
    var left: nat
    const answer: nat -> PublishResult

    method PublishBlob(hash: Hash) returns (result: PublishResult)
      modifies this
      ensures left <= old(left) && (left > 0 ==> old(left) > 0)
      ensures store.actions == old(store).actions
      ensures store.blobs == old(store).blobs || (old(left) > 0 && store.blobs == old(store).blobs + {hash})
      ensures left > 0 && (result == Published || result == AlreadyPresent) ==> hash in store.blobs
      ensures result == Skipped || result == Conflict ==> store == old(store) && result == answer(old(requests))
      ensures requests == old(requests) + 1
    {
      result := answer(requests);
      requests := requests + 1;
      if left == 0 { return; }
      left := left - 1;
      if result == Published || result == AlreadyPresent {
        result := if hash in store.blobs then AlreadyPresent else Published;
        store := store.(blobs := store.blobs + {hash});
      }
    }

    /** `PutIfAbsentOrSame` */
    method PutAction(key: Key, text: string) returns (result: PublishResult)
      modifies this
      ensures left <= old(left) && (left > 0 ==> old(left) > 0)
      ensures store == old(store) || (old(left) > 0 && key !in old(store).actions && store == old(store).(actions := old(store).actions[key := text]))
      ensures left > 0 && (result == Published || result == AlreadyPresent) ==> key in store.actions && store.actions[key] == text
      ensures result == Skipped ==> result == answer(old(requests))
      ensures requests == old(requests) + 1
    {
      result := answer(requests);
      requests := requests + 1;
      if left == 0 { return; }
      left := left - 1;
      if result == Published || result == AlreadyPresent {
        if key in store.actions {
          result := if store.actions[key] == text then AlreadyPresent else Conflict;
        } else {
          result := Published;
          store := store.(actions := store.actions[key := text]);
        }
      }
    }
  }

  datatype Counts = Counts(uploaded: nat, reused: nat)

  /** None where the source raises. */
  method CopyBlob(source: Source, d: Destination, hash: Hash, counts: Counts) returns (r: Option<Counts>, skipped: bool)
    modifies d
    ensures d.left <= old(d.left) && (d.left > 0 ==> old(d.left) > 0)
    ensures d.store.actions == old(d.store).actions
    ensures old(d.store).blobs <= d.store.blobs <= old(d.store).blobs + {hash}
    ensures skipped ==> r.Some? && d.store == old(d.store) && exists i :: d.answer(i) == Skipped
    ensures d.left > 0 && r.Some? ==> skipped || hash in d.store.blobs
    ensures d.store != old(d.store) || r.Some? ==> source.fetchBlob(hash) == Hit
    ensures match r
            case Some(c) => c.uploaded + c.reused == counts.uploaded + counts.reused + (if skipped then 0 else 1)
            case None => true
  {
    skipped := false;
    if source.fetchBlob(hash) != Hit { return None, false; }
    var result := d.PublishBlob(hash);
    match result {
      case Published => r := Some(Counts(counts.uploaded + 1, counts.reused));
      case AlreadyPresent => r := Some(Counts(counts.uploaded, counts.reused + 1));
      case Skipped =>
        skipped := true;
        r := Some(counts);
      case Conflict => r := None;
    }
  }

  datatype EntryResult = EntryResult(key: Key, blobs: nat, counts: Counts, action: PublishResult)

  /** A destination once the blobs of an entry are copied, but for some it skipped. */
  function WithBlobs(s: Store, blobs: set<Hash>, skipped: set<Hash>): Store {
    s.(blobs := s.blobs + (blobs - skipped))
  }

  /** And once the entry is, too. */
  function WithEntry(s: Store, key: Key, text: string, skipped: set<Hash>): Store {
    WithBlobs(s, LiveBlobs(text), skipped).(actions := s.actions[key := text])
  }

  function Elements(hashes: seq<Hash>): set<Hash> {
    set h | h in hashes
  }

  lemma NextElement(named: seq<Hash>, i: nat)
    requires i < |named| && forall i, j | 0 <= i < j < |named| :: named[i] != named[j]
    ensures Elements(named[..i + 1]) == Elements(named[..i]) + {named[i]} && named[i] !in Elements(named[..i])
    ensures Elements(named[..i + 1]) <= Elements(named)
  {
    assert named[..i + 1] == named[..i] + [named[i]];
  }

  lemma OneMoreBlob(s: Store, copied: set<Hash>, skipped: set<Hash>, hash: Hash)
    requires skipped <= copied && hash !in copied
    ensures WithBlobs(s, copied + {hash}, skipped + {hash}) == WithBlobs(s, copied, skipped) && |skipped + {hash}| == |skipped| + 1
    ensures WithBlobs(s, copied + {hash}, skipped) == WithBlobs(s, copied, skipped).(blobs := WithBlobs(s, copied, skipped).blobs + {hash})
  {}

  /** `List.foldl` of `copy_blob`: none where a blob's copy raises. */
  method CopyBlobs(source: Source, d: Destination, named: seq<Hash>) returns (counts: Option<Counts>, skipped: set<Hash>)
    requires forall i, j | 0 <= i < j < |named| :: named[i] != named[j]
    modifies d
    ensures d.left <= old(d.left) && (d.left > 0 ==> old(d.left) > 0)
    ensures d.store.actions == old(d.store).actions
    ensures old(d.store).blobs <= d.store.blobs <= old(d.store).blobs + Elements(named)
    ensures skipped <= Elements(named) && (skipped != {} ==> exists i :: d.answer(i) == Skipped)
    ensures d.left > 0 && counts.Some? ==> d.store == WithBlobs(old(d.store), Elements(named), skipped)
    ensures forall h <- d.store.blobs :: h in old(d.store).blobs || source.fetchBlob(h) == Hit
    ensures counts.Some? ==> (forall h <- named :: source.fetchBlob(h) == Hit) && counts.value.uploaded + counts.value.reused + |skipped| == |named|
  {
    skipped := {};
    counts := Some(Counts(0, 0));
    ghost var before := d.store;
    assert named[..0] == [];
    assert CopiedSome(before, d.store, source, named) && Copied(before, d.store, source, named, 0, Counts(0, 0), {}, d.left > 0);
    hide CopiedSome, Copied, WithBlobs, Elements;
    for i := 0 to |named|
      invariant counts.Some?
      invariant d.left <= old(d.left) && (d.left > 0 ==> old(d.left) > 0)
      invariant skipped != {} ==> exists j :: d.answer(j) == Skipped
      invariant CopiedSome(before, d.store, source, named)
      invariant Copied(before, d.store, source, named, i, counts.value, skipped, d.left > 0)
    {
      ghost var (was, stood) := (d.store, d.left > 0);
      var next, skip := CopyBlob(source, d, named[i], counts.value);
      OneMoreCopied(before, was, d.store, source, named, i, counts.value, next, skipped, skip, stood, d.left > 0);
      if skip { skipped := skipped + {named[i]}; }
      if next.None? {
        SkippedAreNamed(before, was, source, named, i, counts.value, skipped, stood);
        CopiedSomeSays(before, d.store, source, named);
        return None, skipped;
      }
      counts := next;
    }
    CopiedSomeSays(before, d.store, source, named);
    CopiedAll(before, d.store, source, named, counts.value, skipped, d.left > 0);
  }

  /** The destination as copying some of the blobs can leave it. */
  ghost predicate CopiedSome(s: Store, t: Store, source: Source, named: seq<Hash>) {
    && t.actions == s.actions && s.blobs <= t.blobs <= s.blobs + Elements(named)
    && forall h <- t.blobs :: h in s.blobs || source.fetchBlob(h) == Hit
  }

  /** And once the first `i` are copied; `whole` if it was not stopped. */
  ghost predicate Copied(s: Store, t: Store, source: Source, named: seq<Hash>, i: nat, counts: Counts, skipped: set<Hash>, whole: bool)
    requires i <= |named|
  {
    && skipped <= Elements(named[..i]) && (forall j | 0 <= j < i :: source.fetchBlob(named[j]) == Hit)
    && counts.uploaded + counts.reused + |skipped| == i
    && (whole ==> t == WithBlobs(s, Elements(named[..i]), skipped))
  }

  lemma OneMoreCopied(s: Store, was: Store, t: Store, source: Source, named: seq<Hash>, i: nat, counts: Counts, next: Option<Counts>,
                      skipped: set<Hash>, skip: bool, stood: bool, stands: bool)
    requires i < |named| && forall i, j | 0 <= i < j < |named| :: named[i] != named[j]
    requires CopiedSome(s, was, source, named) && Copied(s, was, source, named, i, counts, skipped, stood)
    requires t.actions == was.actions && was.blobs <= t.blobs <= was.blobs + {named[i]} && (stands ==> stood)
    requires t != was || next.Some? ==> source.fetchBlob(named[i]) == Hit
    requires (skip ==> next.Some? && t == was) && (stands && next.Some? ==> skip || named[i] in t.blobs)
    requires match next
             case Some(c) => c.uploaded + c.reused == counts.uploaded + counts.reused + (if skip then 0 else 1)
             case None => true
    ensures CopiedSome(s, t, source, named)
    ensures match next
            case Some(c) => Copied(s, t, source, named, i + 1, c, if skip then skipped + {named[i]} else skipped, stands)
            case None => true
  {
    assert named[i] in Elements(named) by { assert named[i] in named; }
    assert CopiedSome(s, t, source, named) by { hide Elements; }
    if next.Some? {
      assert named[i] in t.blobs ==> t == was.(blobs := was.blobs + {named[i]});
      hide CopiedSome;
      OneMoreDone(s, was, t, source, named, i, counts, next.value, skipped, skip, stood, stands);
    }
  }

  lemma OneMoreDone(s: Store, was: Store, t: Store, source: Source, named: seq<Hash>, i: nat, counts: Counts, next: Counts,
                    skipped: set<Hash>, skip: bool, stood: bool, stands: bool)
    requires i < |named| && forall i, j | 0 <= i < j < |named| :: named[i] != named[j]
    requires Copied(s, was, source, named, i, counts, skipped, stood) && source.fetchBlob(named[i]) == Hit
    requires (stands ==> stood) && (skip ==> t == was) && (stands && !skip ==> t == was.(blobs := was.blobs + {named[i]}))
    requires next.uploaded + next.reused == counts.uploaded + counts.reused + (if skip then 0 else 1)
    ensures Copied(s, t, source, named, i + 1, next, if skip then skipped + {named[i]} else skipped, stands)
  {
    NextElement(named, i);
    CopiedSkips(s, was, source, named, i, counts, skipped, stood);
    OneMoreBlob(s, Elements(named[..i]), skipped, named[i]);
    CopiedLess(s, was, source, named, i, counts, skipped, stood, stands);
    hide WithBlobs, Elements, Copied;
    if skip {
      OneMoreSkipped(s, was, source, named, i, counts, next, skipped, stands);
    } else {
      OneMoreGiven(s, was, t, source, named, i, counts, next, skipped, stood, stands);
    }
  }

  lemma CopiedSkips(s: Store, t: Store, source: Source, named: seq<Hash>, i: nat, counts: Counts, skipped: set<Hash>, whole: bool)
    requires i <= |named| && Copied(s, t, source, named, i, counts, skipped, whole)
    ensures skipped <= Elements(named[..i])
  {
    hide Elements, WithBlobs;
  }

  lemma CopiedLess(s: Store, t: Store, source: Source, named: seq<Hash>, i: nat, counts: Counts, skipped: set<Hash>, stood: bool, stands: bool)
    requires i <= |named| && Copied(s, t, source, named, i, counts, skipped, stood) && (stands ==> stood)
    ensures Copied(s, t, source, named, i, counts, skipped, stands)
  {
    hide Elements, WithBlobs;
  }

  lemma OneMoreGiven(s: Store, was: Store, t: Store, source: Source, named: seq<Hash>, i: nat, counts: Counts, next: Counts,
                     skipped: set<Hash>, stood: bool, stands: bool)
    requires i < |named| && source.fetchBlob(named[i]) == Hit && Copied(s, was, source, named, i, counts, skipped, stood)
    requires (stands ==> stood) && (stands ==> t == was.(blobs := was.blobs + {named[i]}))
    requires var (before, after) := (WithBlobs(s, Elements(named[..i]), skipped), WithBlobs(s, Elements(named[..i + 1]), skipped));
             && Elements(named[..i]) <= Elements(named[..i + 1]) && after == before.(blobs := before.blobs + {named[i]})
    requires next.uploaded + next.reused == counts.uploaded + counts.reused + 1
    ensures Copied(s, t, source, named, i + 1, next, skipped, stands)
  {
    hide WithBlobs, Elements;
  }

  lemma OneMoreSkipped(s: Store, t: Store, source: Source, named: seq<Hash>, i: nat, counts: Counts, next: Counts, skipped: set<Hash>, stands: bool)
    requires i < |named| && source.fetchBlob(named[i]) == Hit && Copied(s, t, source, named, i, counts, skipped, stands)
    requires var done := Elements(named[..i]);
             && Elements(named[..i + 1]) == done + {named[i]} && |skipped + {named[i]}| == |skipped| + 1
             && WithBlobs(s, done + {named[i]}, skipped + {named[i]}) == WithBlobs(s, done, skipped)
    requires next.uploaded + next.reused == counts.uploaded + counts.reused
    ensures Copied(s, t, source, named, i + 1, next, skipped + {named[i]}, stands)
  {
    hide WithBlobs, Elements;
  }

  lemma SkippedAreNamed(s: Store, t: Store, source: Source, named: seq<Hash>, i: nat, counts: Counts, skipped: set<Hash>, whole: bool)
    requires i <= |named| && Copied(s, t, source, named, i, counts, skipped, whole)
    ensures skipped <= Elements(named)
  {
    assert forall h <- named[..i] :: h in named;
  }

  lemma CopiedSomeSays(s: Store, t: Store, source: Source, named: seq<Hash>)
    requires CopiedSome(s, t, source, named)
    ensures t.actions == s.actions && s.blobs <= t.blobs <= s.blobs + Elements(named)
    ensures forall h <- t.blobs :: h in s.blobs || source.fetchBlob(h) == Hit
  {}

  lemma CopiedAll(s: Store, t: Store, source: Source, named: seq<Hash>, counts: Counts, skipped: set<Hash>, whole: bool)
    requires Copied(s, t, source, named, |named|, counts, skipped, whole)
    ensures skipped <= Elements(named) && (whole ==> t == WithBlobs(s, Elements(named), skipped))
    ensures (forall h <- named :: source.fetchBlob(h) == Hit) && counts.uploaded + counts.reused + |skipped| == |named|
  {
    assert named[..|named|] == named;
  }

  /** One entry. Whatever fails and wherever it stops, no other entry changes and no blob
      goes, and the entry is there only once each of its blobs is, but for those skipped.
      An entry published leaves a closed cache closed exactly when no blob it skipped was
      missing. */
  method CopyEntry(source: Source, d: Destination, key: Key) returns (r: Option<EntryResult>, skipped: set<Hash>)
    modifies d
    ensures d.left <= old(d.left) && (d.left > 0 ==> old(d.left) > 0)
    ensures old(d.store).blobs <= d.store.blobs
    ensures skipped != {} ==> exists i :: d.answer(i) == Skipped
    ensures match source.getAction(key)
            case None => d.store == old(d.store) && r.None?
            case Some(text) =>
              && skipped <= LiveBlobs(text)
              && (forall h <- d.store.blobs :: h in old(d.store).blobs || h in LiveBlobs(text))
              && (d.store.actions == old(d.store).actions || (key !in old(d.store).actions && d.store == WithEntry(old(d.store), key, text, skipped)))
    ensures match r
            case Some(result) =>
              && result.key == key && result.counts.uploaded + result.counts.reused + |skipped| == result.blobs
              && (result.action == Skipped ==> exists i :: d.answer(i) == Skipped)
              && (d.left > 0 && result.action != Skipped ==> key in d.store.actions && source.getAction(key) == Some(d.store.actions[key]))
            case None => true
    ensures match source.getAction(key)
            case None => true
            case Some(text) =>
              Closed(old(d.store)) && d.store.actions != old(d.store).actions ==>
                (Closed(d.store) <==> LiveBlobs(text) * skipped <= old(d.store).blobs)
    ensures Closed(old(d.store)) && d.store.actions == old(d.store).actions ==> Closed(d.store)
    ensures d.store.actions != old(d.store).actions ==>
              forall h | Says(d.store.actions[key], h) :: source.fetchBlob(h) == Hit && (h in d.store.blobs || h in skipped)
    ensures forall h <- d.store.blobs :: h in old(d.store).blobs || source.fetchBlob(h) == Hit
  {
    skipped := {};
    r := None;
    var found := source.getAction(key);
    match found {
      case None => return;
      case Some(text) =>
        ReadingsAgree(text);
        forall h { LiveBlobsAreSaid(text, h); }
        var named := UniqueBlobs(text);
        assert Elements(named) == LiveBlobs(text);
        if Closed(d.store) && key !in d.store.actions {
          forall missed: set<Hash> { SkippingClosed(d.store, key, text, missed); }
        }
        hide Closed, LiveBlobs, UniqueBlobs, Says;
        var counts;
        counts, skipped := CopyBlobs(source, d, named);
        MoreBlobsClosed(old(d.store), d.store);
        if counts.None? { return; }
        var action := d.PutAction(key, text);
        if action == Conflict { return; }
        r := Some(EntryResult(key, |named|, counts.value, action));
    }
  }

  lemma MoreBlobsClosed(s: Store, t: Store)
    requires s.actions == t.actions && s.blobs <= t.blobs
    ensures Closed(s) ==> Closed(t)
  {}

  /** Entries in turn, up to the first that fails. If the destination never skips, then
      wherever it fails or stops, every entry there has its blobs. */
  method CopyEntries(source: Source, d: Destination, keys: seq<Key>) returns (results: seq<EntryResult>, failed: bool)
    requires Closed(d.store) && forall i :: d.answer(i) != Skipped
    modifies d
    ensures Closed(d.store)
    ensures old(d.store).blobs <= d.store.blobs
    ensures forall k <- old(d.store).actions :: k in d.store.actions && d.store.actions[k] == old(d.store).actions[k]
    ensures forall k <- d.store.actions :: k in old(d.store).actions || (k in keys && source.getAction(k) == Some(d.store.actions[k]))
    ensures !failed && d.left > 0 ==> forall k <- keys :: k in d.store.actions && source.getAction(k) == Some(d.store.actions[k])
  {
    results := [];
    failed := false;
    var i := 0;
    while i < |keys|
      invariant 0 <= i <= |keys|
      invariant Closed(d.store) && old(d.store).blobs <= d.store.blobs
      invariant forall k <- old(d.store).actions :: k in d.store.actions && d.store.actions[k] == old(d.store).actions[k]
      invariant forall k <- d.store.actions :: k in old(d.store).actions || (k in keys && source.getAction(k) == Some(d.store.actions[k]))
      invariant d.left > 0 ==> forall j | 0 <= j < i :: keys[j] in d.store.actions && source.getAction(keys[j]) == Some(d.store.actions[keys[j]])
    {
      var r, skipped := CopyEntry(source, d, keys[i]);
      match r {
        case None => return results, true;
        case Some(result) => results := results + [result];
      }
      i := i + 1;
    }
  }

  // ------------------------------------------------------------ skipping

  /** Exactly when no blob it skipped was missing does a copied entry leave a closed
      cache closed. */
  lemma SkippingClosed(s: Store, key: Key, text: string, skipped: set<Hash>)
    requires Closed(s) && key !in s.actions
    ensures Closed(WithEntry(s, key, text, skipped)) <==> LiveBlobs(text) * skipped <= s.blobs
  {
    var after := WithEntry(s, key, text, skipped);
    assert key in after.actions && after.actions[key] == text;
    assert Closed(after) ==> forall h <- LiveBlobs(after.actions[key]) :: h in after.blobs;
    if LiveBlobs(text) * skipped <= s.blobs {
      forall k <- after.actions, h <- LiveBlobs(after.actions[k])
        ensures h in after.blobs
      {
        if k != key { assert k in s.actions && h in LiveBlobs(s.actions[k]); }
      }
    }
  }
}
