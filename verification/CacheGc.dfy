/** Collecting garbage in a cache on disk: stale actions go first, then the stale blobs
    that no action left names. */
module CacheGc {
  import opened Wrappers
  import opened Manifest

  type Key = string
  type Time = int

  datatype ManifestFile = ManifestFile(text: string, modified: Time)

  /** An action's directory; it may have no manifest yet. */
  datatype ActionDir = ActionDir(manifest: Option<ManifestFile>, modified: Time)

  predicate Stale(cutoff: Time, modified: Time) {
    modified < cutoff
  }

  /** An action is as old as its manifest, or its directory if it has none. */
  predicate StaleAction(cutoff: Time, a: ActionDir) {
    match a.manifest
    case Some(m) => Stale(cutoff, m.modified)
    case None => Stale(cutoff, a.modified)
  }

  function ActionLiveBlobs(a: ActionDir): set<Hash> {
    match a.manifest
    case Some(m) => LiveBlobs(m.text)
    case None => {}
  }

  ghost predicate Names(actions: map<Key, ActionDir>, hash: Hash) {
    exists k <- actions :: hash in ActionLiveBlobs(actions[k])
  }

  /** Every entry's blobs are there. */
  ghost predicate Closed(actions: map<Key, ActionDir>, blobs: map<Hash, Time>) {
    forall k <- actions, h <- ActionLiveBlobs(actions[k]) :: h in blobs
  }

  function Surviving(actions: map<Key, ActionDir>, cutoff: Time): map<Key, ActionDir> {
    map k | k in actions && !StaleAction(cutoff, actions[k]) :: actions[k]
  }

  /** The actions once those of `done` were looked at. */
  function Cleared(actions: map<Key, ActionDir>, cutoff: Time, done: seq<Key>): map<Key, ActionDir> {
    map k | k in actions && !(k in done && StaleAction(cutoff, actions[k])) :: actions[k]
  }

  /** What the actions of `done` that stay name. */
  function LiveIn(actions: map<Key, ActionDir>, cutoff: Time, done: seq<Key>): set<Hash> {
    if done == [] then {}
    else
      var key := done[|done| - 1];
      LiveIn(actions, cutoff, done[..|done| - 1]) +
      (if key in actions && !StaleAction(cutoff, actions[key]) then ActionLiveBlobs(actions[key]) else {})
  }

  lemma {:induction false} LiveInNames(actions: map<Key, ActionDir>, cutoff: Time, done: seq<Key>, h: Hash)
    ensures h in LiveIn(actions, cutoff, done) <==> exists k <- done :: k in actions && !StaleAction(cutoff, actions[k]) && h in ActionLiveBlobs(actions[k])
  {
    if done != [] {
      var key := done[|done| - 1];
      LiveInNames(actions, cutoff, done[..|done| - 1], h);
      assert forall k :: k in done <==> k == key || k in done[..|done| - 1];
    }
  }

  lemma AllLive(actions: map<Key, ActionDir>, cutoff: Time, all: seq<Key>)
    requires forall k :: k in all <==> k in actions
    ensures forall h :: h in LiveIn(actions, cutoff, all) <==> Names(Surviving(actions, cutoff), h)
    ensures Cleared(actions, cutoff, all) == Surviving(actions, cutoff)
  {
    forall h
      ensures h in LiveIn(actions, cutoff, all) <==> Names(Surviving(actions, cutoff), h)
    {
      LiveInNames(actions, cutoff, all, h);
      var kept := Surviving(actions, cutoff);
      assert forall k <- kept :: kept[k] == actions[k];
      if h in LiveIn(actions, cutoff, all) {
        var k :| k in all && k in actions && !StaleAction(cutoff, actions[k]) && h in ActionLiveBlobs(actions[k]);
        assert k in kept;
      }
    }
  }

  lemma OneMore(actions: map<Key, ActionDir>, cutoff: Time, done: seq<Key>, key: Key)
    requires key in actions && key !in done
    ensures Cleared(actions, cutoff, done + [key]) ==
            if StaleAction(cutoff, actions[key]) then Cleared(actions, cutoff, done) - {key} else Cleared(actions, cutoff, done)
    ensures LiveIn(actions, cutoff, done + [key]) ==
            LiveIn(actions, cutoff, done) + (if StaleAction(cutoff, actions[key]) then {} else ActionLiveBlobs(actions[key]))
    ensures key in Cleared(actions, cutoff, done)
  {
    assert (done + [key])[..|done|] == done;
  }

  /** An action kept whose manifest says the blob. */
  ghost predicate KeepsBlob(a: ActionDir, cutoff: Time, hash: Hash) {
    match a.manifest
    case Some(m) => m.modified >= cutoff && Says(m.text, hash)
    case None => false
  }

  lemma KeptIsNamed(actions: map<Key, ActionDir>, cutoff: Time, hash: Hash)
    ensures Names(Surviving(actions, cutoff), hash) <==> exists k <- actions :: KeepsBlob(actions[k], cutoff, hash)
  {
    var kept := Surviving(actions, cutoff);
    forall k <- actions
      ensures KeepsBlob(actions[k], cutoff, hash) <==> k in kept && hash in ActionLiveBlobs(kept[k])
    {
      match actions[k].manifest
      case Some(m) => LiveBlobsAreSaid(m.text, hash);
      case None =>
    }
    hide KeepsBlob, ActionLiveBlobs;
    assert forall k <- kept :: k in actions;
  }

  /** The cache directory. The process is stopped once `left` more things are removed. */
  class Cache {
    var actions: map<Key, ActionDir>
    var blobs: map<Hash, Time>
    var left: nat

    method RemoveAction(key: Key)
      modifies this`actions, this`left
      ensures left == if old(left) == 0 then 0 else old(left) - 1
      ensures actions == if old(left) == 0 then old(actions) else old(actions) - {key}
    {
      if left == 0 { return; }
      left := left - 1;
      actions := actions - {key};
    }

    method RemoveBlob(hash: Hash)
      modifies this`blobs, this`left
      ensures left == if old(left) == 0 then 0 else old(left) - 1
      ensures blobs == if old(left) == 0 then old(blobs) else old(blobs) - {hash}
    {
      if left == 0 { return; }
      left := left - 1;
      blobs := blobs - {hash};
    }

    /** One action directory. */
    method Look(cutoff: Time, key: Key, live: set<Hash>) returns (live': set<Hash>)
      requires key in actions
      modifies this`actions, this`left
      ensures left <= old(left)
      ensures actions == if StaleAction(cutoff, old(actions)[key]) && old(left) > 0 then old(actions) - {key} else old(actions)
      ensures live' == live + (if StaleAction(cutoff, old(actions)[key]) then {} else ActionLiveBlobs(old(actions)[key]))
    {
      live' := live;
      var dir := actions[key];
      match dir.manifest {
        case Some(m) =>
          if Stale(cutoff, m.modified) {
            RemoveAction(key);
          } else {
            live' := live + LiveBlobs(m.text);
          }
        case None =>
          if Stale(cutoff, dir.modified) {
            RemoveAction(key);
          }
      }
    }

    /** Part of `all`, with every action of `rest` in it. */
    ghost predicate Reduced(all: map<Key, ActionDir>, rest: seq<Key>)
      reads this
    {
      && (forall k <- actions :: k in all && actions[k] == all[k])
      && (forall j | 0 <= j < |rest| :: rest[j] in actions)
      && (forall i, j | 0 <= i < j < |rest| :: rest[i] != rest[j])
    }

    /** `collect_live_actions`: what it keeps live is what the actions it leaves name. */
    method CollectLiveActions(cutoff: Time, children: seq<Key>) returns (live: set<Hash>)
      requires forall k :: k in children <==> k in actions
      requires forall i, j | 0 <= i < j < |children| :: children[i] != children[j]
      modifies this`actions, this`left
      ensures left > 0 ==> actions == Surviving(old(actions), cutoff)
      ensures forall k <- actions :: k in old(actions) && actions[k] == old(actions)[k]
      ensures forall h :: h in live <==> Names(Surviving(old(actions), cutoff), h)
    {
      live := {};
      AllLive(actions, cutoff, children);
      ghost var all := actions;
      live := CollectFrom(cutoff, children, [], all, live);
      assert [] + children == children;
    }

    method CollectFrom(cutoff: Time, rest: seq<Key>, ghost done: seq<Key>, ghost all: map<Key, ActionDir>, found: set<Hash>) returns (live: set<Hash>)
      requires Reduced(all, rest) && (forall k <- rest :: k !in done)
      requires found == LiveIn(all, cutoff, done) && (left > 0 ==> actions == Cleared(all, cutoff, done))
      modifies this`actions, this`left
      ensures Reduced(all, [])
      ensures live == LiveIn(all, cutoff, done + rest) && (left > 0 ==> actions == Cleared(all, cutoff, done + rest))
    {
      hide Cleared, LiveIn, StaleAction, ActionLiveBlobs;
      live := found;
      ghost var seen := done;
      for i := 0 to |rest|
        invariant seen == done + rest[..i]
        invariant Reduced(all, rest[i..]) && (forall k <- rest[i..] :: k !in seen)
        invariant live == LiveIn(all, cutoff, seen) && (left > 0 ==> actions == Cleared(all, cutoff, seen))
      {
        var key := rest[i];
        ghost var (now, next) := (rest[i..], rest[i + 1..]);
        assert now == [key] + next;
        assert forall j | 0 <= j < |next| :: next[j] == now[j + 1] && next[j] != now[0];
        OneMore(all, cutoff, seen, key);
        live := Look(cutoff, key, live);
        assert rest[..i + 1] == rest[..i] + [key];
        seen := seen + [key];
      }
      assert rest[..|rest|] == rest;
    }

    /** `sweep_blobs` */
    method SweepBlobs(cutoff: Time, live: set<Hash>, children: seq<Hash>)
      requires forall h :: h in children <==> h in blobs
      requires forall i, j | 0 <= i < j < |children| :: children[i] != children[j]
      modifies this`blobs, this`left
      ensures left > 0 ==> forall h :: h in blobs <==> h in old(blobs) && !(Stale(cutoff, old(blobs)[h]) && h !in live)
      ensures forall h <- old(blobs) :: h !in blobs ==> Stale(cutoff, old(blobs)[h]) && h !in live
      ensures forall h <- blobs :: h in old(blobs) && blobs[h] == old(blobs)[h]
    {
      for i := 0 to |children|
        invariant forall h <- blobs :: h in old(blobs) && blobs[h] == old(blobs)[h]
        invariant forall h <- old(blobs) :: h !in blobs ==> Stale(cutoff, old(blobs)[h]) && h !in live
        invariant forall j | i <= j < |children| :: children[j] in blobs
        invariant left > 0 ==> forall j | 0 <= j < i :: children[j] in blobs ==> !(Stale(cutoff, old(blobs)[children[j]]) && children[j] !in live)
      {
        var hash := children[i];
        if Stale(cutoff, blobs[hash]) && hash !in live {
          RemoveBlob(hash);
        }
      }
    }

    /** `gc_root`, as far as actions and blobs go. Stopped anywhere, a closed cache stays
        closed, and no blob goes that the manifest of an action kept says; run to its end,
        exactly the actions older than the cutoff go, and of the blobs so old exactly those
        that no such manifest says. */
    method GcRoot(cutoff: Time, actionDirs: seq<Key>, blobFiles: seq<Hash>)
      requires forall k :: k in actionDirs <==> k in actions
      requires forall i, j | 0 <= i < j < |actionDirs| :: actionDirs[i] != actionDirs[j]
      requires forall h :: h in blobFiles <==> h in blobs
      requires forall i, j | 0 <= i < j < |blobFiles| :: blobFiles[i] != blobFiles[j]
      modifies this
      ensures Closed(old(actions), old(blobs)) ==> Closed(actions, blobs)
      ensures left > 0 ==> actions == Surviving(old(actions), cutoff)
      ensures left > 0 ==> forall k <- old(actions) ::
                k in actions <==> (match old(actions)[k].manifest case Some(m) => m.modified case None => old(actions)[k].modified) >= cutoff
      ensures forall h <- old(blobs) :: h !in blobs ==> old(blobs)[h] < cutoff && forall k <- old(actions) :: !KeepsBlob(old(actions)[k], cutoff, h)
      ensures left > 0 ==> forall h <- old(blobs) :: old(blobs)[h] < cutoff && (forall k <- old(actions) :: !KeepsBlob(old(actions)[k], cutoff, h)) ==> h !in blobs
      ensures forall h <- blobs :: h in old(blobs) && blobs[h] == old(blobs)[h]
    {
      forall h { KeptIsNamed(actions, cutoff, h); }
      var live := CollectLiveActions(cutoff, actionDirs);
      if left == 0 { return; }
      hide KeepsBlob, Names;
      SweepBlobs(cutoff, live, blobFiles);
    }
  }
}
