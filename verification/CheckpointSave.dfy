/** Saving, replacing and discarding a checkpoint: a heap and the metadata beside it,
    whatever operation the process is stopped after and whatever operation fails. */
module CheckpointSave {
  import opened Wrappers
  import opened Disk

  function OkPath(path: Name): Name {
    path + ".ok"
  }

  function TmpPath(path: Name): Name {
    path + ".ok.tmp"
  }

  lemma NamesDiffer(path: Name)
    ensures path != OkPath(path) && path != TmpPath(path) && OkPath(path) != TmpPath(path)
  {
    assert |path| < |OkPath(path)| < |TmpPath(path)|;
  }

  /** No metadata beside the heap. */
  ghost predicate Unmarked(f: Files, path: Name) {
    OkPath(path) !in f.names
  }

  /** Metadata and heap as they were. */
  ghost predicate Untouched(before: Files, f: Files, path: Name) {
    Content(f, OkPath(path)) == Content(before, OkPath(path)) && Content(f, path) == Content(before, path)
  }

  /** The complete new heap, and the metadata written for it. */
  ghost predicate Saved(f: Files, path: Name, text: Bytes, heap: Bytes) {
    Content(f, OkPath(path)) == Some(text) && Content(f, path) == Some(heap)
  }

  /** Every other name leads to the bytes it led to. */
  ghost predicate OthersKept(before: Files, f: Files, path: Name) {
    forall n | n != path && n != OkPath(path) && n != TmpPath(path) :: Content(f, n) == Content(before, n)
  }

  /** If the file is there, it can be removed. */
  ghost predicate Removable(f: Files, stuck: set<Name>, name: Name) {
    name in f.names ==> name !in stuck
  }

  function Dropped(f: Files, stuck: set<Name>, name: Name): Files {
    if name in stuck then f else Removed(f, name)
  }

  /** After the first `n` removals of a replacement or a discard. */
  function Discarded(f: Files, stuck: set<Name>, path: Name, n: nat): Files {
    if n == 0 then f
    else if n == 1 then Dropped(f, stuck, TmpPath(path))
    else if n == 2 then Dropped(Discarded(f, stuck, path, 1), stuck, OkPath(path))
    else Dropped(Discarded(f, stuck, path, 2), stuck, path)
  }

  function Min(m: nat, n: nat): nat {
    if m < n then m else n
  }

  /** Metadata goes before the heap. */
  lemma DiscardedSafely(f: Files, stuck: set<Name>, path: Name, n: nat)
    ensures var g := Discarded(f, stuck, path, n);
            && OthersKept(f, g, path) && g.bytes == f.bytes
            && (forall k <- g.names :: k in f.names && g.names[k] == f.names[k])
            && (Removable(f, stuck, OkPath(path)) ==> Unmarked(g, path) || (n < 2 && Untouched(f, g, path)))
    ensures n >= 3 ==> forall k | k == path || k == OkPath(path) || k == TmpPath(path) ::
              k in Discarded(f, stuck, path, n).names <==> !Removable(f, stuck, k)
    ensures n >= 3 ==> forall k <- f.names | k != path && k != OkPath(path) && k != TmpPath(path) :: k in Discarded(f, stuck, path, n).names
  {
    NamesDiffer(path);
    if n == 2 { DiscardedSafely(f, stuck, path, 1); }
    if n > 2 { DiscardedSafely(f, stuck, path, 2); }
  }

  /** `begin_replacement`, and `discard_checkpoint`: three removals, in this order. */
  method Discard(d: Disk, path: Name)
    requires d.Valid()
    modifies d`files, d`left, d`next
    ensures d.Valid() && d.next == old(d.next)
    ensures d.files == Discarded(old(d.files), d.stuck, path, old(d.left))
    ensures d.left == old(d.left) - Min(old(d.left), 3)
    ensures OthersKept(old(d.files), d.files, path)
    ensures Removable(old(d.files), d.stuck, OkPath(path)) ==>
              Unmarked(d.files, path) || (d.left == 0 && Untouched(old(d.files), d.files, path))
  {
    DiscardedSafely(d.files, d.stuck, path, d.left);
    hide OthersKept, Untouched, Unmarked, Removable, Removed, TmpPath, OkPath;
    ghost var (f, ops) := (d.files, d.left);
    d.Remove(TmpPath(path));
    assert d.files == Discarded(f, d.stuck, path, Min(ops, 1));
    d.Remove(OkPath(path));
    assert d.files == Discarded(f, d.stuck, path, Min(ops, 2));
    d.Remove(path);
  }

  /** A file after `ops` operations of writing it: its opening, and a piece with each other. */
  function Partly(f: Files, name: Name, spare: Inode, pieces: seq<Bytes>, ops: nat): Files
    requires ops <= |pieces| + 1
  {
    if ops == 0 then f else Written(f, name, spare, Flat(pieces[..ops - 1]))
  }

  /** How many operations writing the pieces tries, if it fails before operation `fails`. */
  function Tries(pieces: seq<Bytes>, fails: Option<nat>): (n: nat)
    ensures n <= |pieces| + 1
  {
    match fails case Some(n) => Min(n, |pieces| + 1) case None => |pieces| + 1
  }

  lemma FlatMore(pieces: seq<Bytes>, i: nat)
    requires i < |pieces|
    ensures Flat(pieces[..i + 1]) == Flat(pieces[..i]) + pieces[i]
  {
    assert pieces[..i + 1][..i] == pieces[..i];
  }

  /** `PolyML.SaveState.saveChild`, and the output of the metadata: it opens the file and
      writes it piece by piece, and may fail before any of that. */
  method WritePieces(d: Disk, name: Name, pieces: seq<Bytes>, fails: Option<nat>) returns (raised: bool)
    requires d.Valid()
    modifies d`files, d`left, d`next
    ensures d.Valid() && Unused(old(d.files), old(d.next))
    ensures raised <==> Tries(pieces, fails) <= |pieces|
    ensures d.files == Partly(old(d.files), name, old(d.next), pieces, Min(old(d.left), Tries(pieces, fails)))
    ensures d.left == old(d.left) - Min(old(d.left), Tries(pieces, fails))
  {
    raised := fails == Some(0);
    assert Unused(d.files, d.next);
    if raised { return; }
    ghost var (f, spare, ops) := (d.files, d.next, d.left);
    var file := d.Open(name);
    WritingOn(f, name, spare, [], []);
    assert pieces[..0] == [] && Flat([]) == [];
    hide Opened, Written, Appended, Unused, Flat, Content;
    var i := 0;
    while i < |pieces|
      invariant i <= |pieces| && i + 1 <= Tries(pieces, fails) && d.Valid()
      invariant d.files == Partly(f, name, spare, pieces, Min(ops, i + 1))
      invariant d.left == ops - Min(ops, i + 1) && (d.left > 0 ==> name in d.files.names && file == d.files.names[name])
    {
      if fails == Some(i + 1) { return true; }
      WritingOn(f, name, spare, Flat(pieces[..i]), pieces[i]);
      FlatMore(pieces, i);
      d.Append(file, pieces[i]);
      i := i + 1;
    }
  }

  /** The name leads to a file that cannot be removed, and so will be written over. */
  ghost predicate Kept(f: Files, stuck: set<Name>, name: Name) {
    name in f.names && name in stuck
  }

  /** The temporary file can be written without touching the heap. */
  ghost predicate Clear(f: Files, stuck: set<Name>, path: Name) {
    !(Kept(f, stuck, TmpPath(path)) && path in f.names && f.names[path] == f.names[TmpPath(path)])
  }

  /** No change but to the temporary file, and to what it is a link to. */
  ghost predicate TmpOnly(f: Files, g: Files, stuck: set<Name>, path: Name) {
    && (Removable(f, stuck, TmpPath(path)) ==> OthersKept(f, g, path))
    && (Clear(f, stuck, path) ==> Content(g, path) == Content(f, path))
    && (Unmarked(f, path) ==> Unmarked(g, path))
  }

  lemma TmpWrittenSafely(f: Files, stuck: set<Name>, path: Name, spare: Inode, pieces: seq<Bytes>, ops: nat)
    requires Sane(f) && Unused(f, spare) && ops <= |pieces| + 1
    ensures var g := Partly(Dropped(f, stuck, TmpPath(path)), TmpPath(path), spare, pieces, ops);
            && TmpOnly(f, g, stuck, path)
            && (ops > 0 ==> TmpPath(path) in g.names && Content(g, TmpPath(path)) == Some(Flat(pieces[..ops - 1])))
            && (ops > 0 && !Clear(f, stuck, path) ==> Content(g, path) == Some(Flat(pieces[..ops - 1])))
  {
    NamesDiffer(path);
    var g := Dropped(f, stuck, TmpPath(path));
    if ops > 0 {
      forall n { WrittenContent(g, TmpPath(path), spare, Flat(pieces[..ops - 1]), n); }
    }
  }

  lemma TmpOnlyRemoved(f: Files, g: Files, stuck: set<Name>, path: Name)
    requires TmpOnly(f, g, stuck, path)
    ensures TmpOnly(f, Removed(g, TmpPath(path)), stuck, path)
  {
    NamesDiffer(path);
  }

  lemma TmpOnlyRenamed(f: Files, g: Files, stuck: set<Name>, path: Name)
    requires TmpOnly(f, g, stuck, path) && TmpPath(path) in g.names
    ensures var h := Renamed(g, TmpPath(path), OkPath(path));
            && (Removable(f, stuck, TmpPath(path)) ==> OthersKept(f, h, path))
            && OthersKept(g, h, path) && Content(h, path) == Content(g, path)
            && Content(h, OkPath(path)) == Content(g, TmpPath(path))
  {
    NamesDiffer(path);
    forall n { RenamedContent(g, TmpPath(path), OkPath(path), n); }
  }

  /** The files once `content` of the metadata is in its temporary file. */
  function TmpWritten(f: Files, stuck: set<Name>, path: Name, spare: Inode, content: Bytes): Files {
    Written(Dropped(f, stuck, TmpPath(path)), TmpPath(path), spare, content)
  }

  /** Stopped between the temporary file's opening and the first operation after its pieces. */
  predicate StopsInText(left: int, text: seq<Bytes>, textFails: Option<nat>) {
    2 <= left <= Tries(text, textFails) + 1
  }

  /** `write_text_atomically` up to its renaming. */
  method WriteTmp(d: Disk, path: Name, pieces: seq<Bytes>, fails: Option<nat>) returns (raised: bool)
    requires d.Valid()
    modifies d`files, d`left, d`next
    ensures d.Valid() && d.left <= old(d.left) && (old(d.left) == 0 ==> d.files == old(d.files))
    ensures TmpOnly(old(d.files), d.files, d.stuck, path)
    ensures d.left > 0 && !raised ==>
              TmpPath(path) in d.files.names && d.files == TmpWritten(old(d.files), d.stuck, path, old(d.next), Flat(pieces))
              && Content(d.files, TmpPath(path)) == Some(Flat(pieces))
    ensures d.left > 0 && !raised && !Clear(old(d.files), d.stuck, path) ==> Content(d.files, path) == Some(Flat(pieces))
    ensures StopsInText(old(d.left), pieces, fails) ==>
              d.left == 0 && d.files == TmpWritten(old(d.files), d.stuck, path, old(d.next), Flat(pieces[..old(d.left) - 2]))
    ensures raised ==> fails.Some?
  {
    var tmp := TmpPath(path);
    d.Remove(tmp);
    TmpWrittenSafely(old(d.files), d.stuck, path, d.next, pieces, 0);
    TmpWrittenSafely(old(d.files), d.stuck, path, d.next, pieces, Min(d.left, Tries(pieces, fails)));
    assert TmpOnly(old(d.files), old(d.files), d.stuck, path);
    assert pieces[..|pieces|] == pieces;
    hide Dropped, Flat, Content, TmpOnly, Written;
    raised := WritePieces(d, tmp, pieces, fails);
  }

  /** `write_text_atomically`, of the metadata: it appears whole or not at all. */
  method WriteTextAtomically(d: Disk, path: Name, pieces: seq<Bytes>, fails: Option<nat>) returns (raised: bool)
    requires d.Valid()
    modifies d`files, d`left, d`next
    ensures d.Valid() && d.left <= old(d.left) && (old(d.left) == 0 ==> d.files == old(d.files))
    ensures Removable(old(d.files), d.stuck, TmpPath(path)) ==> OthersKept(old(d.files), d.files, path)
    ensures Clear(old(d.files), d.stuck, path) ==> Content(d.files, path) == Content(old(d.files), path)
    ensures Unmarked(old(d.files), path) ==>
              Unmarked(d.files, path) || (!raised && Content(d.files, OkPath(path)) == Some(Flat(pieces)))
    ensures d.left > 0 && !raised ==>
              && Content(d.files, OkPath(path)) == Some(Flat(pieces))
              && OthersKept(TmpWritten(old(d.files), d.stuck, path, old(d.next), Flat(pieces)), d.files, path)
    ensures d.left > 0 && !raised && !Clear(old(d.files), d.stuck, path) ==> Content(d.files, path) == Some(Flat(pieces))
    ensures StopsInText(old(d.left), pieces, fails) ==>
              d.left == 0 && d.files == TmpWritten(old(d.files), d.stuck, path, old(d.next), Flat(pieces[..old(d.left) - 2]))
    ensures raised ==> fails.Some?
  {
    raised := WriteTmp(d, path, pieces, fails);
    raised := raised || fails == Some(|pieces| + 1);
    if raised {
      TmpOnlyRemoved(old(d.files), d.files, d.stuck, path);
      d.Remove(TmpPath(path));
      return;
    }
    if d.left > 0 { TmpOnlyRenamed(old(d.files), d.files, d.stuck, path); }
    assert Clear(old(d.files), d.stuck, path) ==> Content(d.files, path) == Content(old(d.files), path);
    hide Renamed, Content, OthersKept, Removable, Clear, Flat, TmpWritten;
    d.Rename(TmpPath(path), OkPath(path));
  }

  // ------------------------------------------------------------ a save, whole or cut short

  /** The heap and the temporary file are not one file that neither name can be removed from. */
  ghost predicate Separate(f: Files, stuck: set<Name>, path: Name) {
    !(Kept(f, stuck, path) && Kept(f, stuck, TmpPath(path)) && f.names[path] == f.names[TmpPath(path)])
  }

  /** What the heap's writing leaves, after the removals before it. */
  lemma HeapWrittenSafely(f: Files, stuck: set<Name>, path: Name, spare: Inode, heap: seq<Bytes>, ops: nat)
    requires Sane(f) && Unused(f, spare) && ops <= |heap| + 1
    ensures var g := Partly(Discarded(f, stuck, path, 3), path, spare, heap, ops);
            && (Removable(f, stuck, OkPath(path)) ==> Unmarked(g, path))
            && (Removable(f, stuck, path) ==> OthersKept(f, g, path))
            && (Removable(f, stuck, TmpPath(path)) ==> Removable(g, stuck, TmpPath(path)))
            && (ops > 0 ==> Content(g, path) == Some(Flat(heap[..ops - 1])))
            && (Separate(f, stuck, path) <==> Clear(g, stuck, path))
  {
    NamesDiffer(path);
    DiscardedSafely(f, stuck, path, 3);
    var g := Discarded(f, stuck, path, 3);
    hide Discarded;
    if ops > 0 {
      forall n { WrittenContent(g, path, spare, Flat(heap[..ops - 1]), n); }
    }
  }

  /** The files of a save stopped with `written` of the heap written. */
  function PartWay(f: Files, stuck: set<Name>, path: Name, spare: Inode, written: Bytes): Files {
    Written(Discarded(f, stuck, path, 3), path, spare, written)
  }

  /** Stopped while the heap is written, a save leaves the old metadata beside part of the
      new heap exactly when the metadata cannot be removed. */
  lemma StaleMetadata(f: Files, stuck: set<Name>, path: Name, spare: Inode, written: Bytes)
    requires Sane(f) && Unused(f, spare)
    ensures var g := PartWay(f, stuck, path, spare, written);
            && Content(g, path) == Some(written)
            && (OkPath(path) in g.names <==> !Removable(f, stuck, OkPath(path)))
            && (OkPath(path) in g.names ==> OkPath(path) in f.names)
            && (OkPath(path) in g.names && !(path in f.names && f.names[path] == f.names[OkPath(path)]) ==>
                  Content(g, OkPath(path)) == Content(f, OkPath(path)))
  {
    NamesDiffer(path);
    DiscardedSafely(f, stuck, path, 3);
    var g := Discarded(f, stuck, path, 3);
    hide Discarded;
    WrittenContent(g, path, spare, written, path);
    WrittenContent(g, path, spare, written, OkPath(path));
  }

  /** `other` is another name of the file `name` leads to, and that file is kept. */
  ghost predicate KeptLink(f: Files, stuck: set<Name>, name: Name, other: Name) {
    Kept(f, stuck, name) && other in f.names && f.names[other] == f.names[name]
  }

  /** What every other name leads to: the metadata or the heap written, where it leads to
      an old file of theirs that could not be removed, and what it led to else. */
  ghost predicate LinksAfter(before: Files, f: Files, stuck: set<Name>, path: Name, heap: Bytes, text: Option<Bytes>) {
    forall n | n != path && n != OkPath(path) && n != TmpPath(path) ::
      Content(f, n) ==
      if text.Some? && KeptLink(before, stuck, TmpPath(path), n) then text
      else if KeptLink(before, stuck, path, n) then Some(heap)
      else Content(before, n)
  }

  /** Other names lead to the files they led to, and so does a temporary file kept. */
  ghost predicate SameLinks(before: Files, f: Files, stuck: set<Name>, path: Name) {
    && (forall n | n != path && n != OkPath(path) && n != TmpPath(path) ::
          (n in f.names <==> n in before.names) && (n in f.names ==> f.names[n] == before.names[n]))
    && (Kept(f, stuck, TmpPath(path)) <==> Kept(before, stuck, TmpPath(path)))
    && (Kept(f, stuck, TmpPath(path)) ==> f.names[TmpPath(path)] == before.names[TmpPath(path)])
  }

  /** Another link to the old heap keeps its bytes exactly when the old heap can be
      removed: else it leads to what was written. */
  lemma SharedHeap(f: Files, stuck: set<Name>, path: Name, spare: Inode, written: Bytes)
    requires Sane(f) && Unused(f, spare)
    ensures LinksAfter(f, PartWay(f, stuck, path, spare, written), stuck, path, written, None)
  {
    NamesDiffer(path);
    DiscardedSafely(f, stuck, path, 3);
    var g := Discarded(f, stuck, path, 3);
    hide Discarded, Written, Content;
    forall n | n != path && n != OkPath(path) && n != TmpPath(path)
      ensures Content(Written(g, path, spare, written), n) == if KeptLink(f, stuck, path, n) then Some(written) else Content(f, n)
    {
      WrittenContent(g, path, spare, written, n);
    }
  }

  lemma PartWaySameLinks(f: Files, stuck: set<Name>, path: Name, spare: Inode, written: Bytes)
    requires Sane(f) && Unused(f, spare)
    ensures SameLinks(f, PartWay(f, stuck, path, spare, written), stuck, path)
  {
    NamesDiffer(path);
    DiscardedSafely(f, stuck, path, 3);
    hide Discarded, Content;
  }

  /** And another link to an old temporary file, once the metadata is written. */
  lemma SharedTmp(f: Files, g: Files, stuck: set<Name>, path: Name, heap: Bytes, spare: Inode, text: Bytes)
    requires Sane(g) && Unused(g, spare) && LinksAfter(f, g, stuck, path, heap, None) && SameLinks(f, g, stuck, path)
    ensures LinksAfter(f, TmpWritten(g, stuck, path, spare, text), stuck, path, heap, Some(text))
  {
    NamesDiffer(path);
    var tmp := TmpPath(path);
    var h := Dropped(g, stuck, tmp);
    forall n { WrittenContent(h, tmp, spare, text, n); }
  }

  lemma LinksRenamed(before: Files, f: Files, g: Files, stuck: set<Name>, path: Name, heap: Bytes, text: Option<Bytes>)
    requires LinksAfter(before, f, stuck, path, heap, text) && OthersKept(f, g, path)
    ensures LinksAfter(before, g, stuck, path, heap, text)
  {
    hide Content;
  }

  /** The save is stopped between the heap's opening and the first operation after its pieces. */
  predicate StopsWithin(left: nat, heap: seq<Bytes>, saveFails: Option<nat>) {
    4 <= left <= Tries(heap, saveFails) + 3
  }

  /** Cut short with `written` of the heap written: the old metadata is there, and the old
      heap's other links lead to what was written, exactly when it could not be removed. */
  ghost predicate CutShort(before: Files, f: Files, stuck: set<Name>, path: Name, written: Bytes) {
    && Content(f, path) == Some(written)
    && (OkPath(path) in f.names <==> !Removable(before, stuck, OkPath(path)))
    && (OkPath(path) in f.names ==> OkPath(path) in before.names)
    && (OkPath(path) in f.names && !(path in before.names && before.names[path] == before.names[OkPath(path)]) ==>
          Content(f, OkPath(path)) == Content(before, OkPath(path)))
    && LinksAfter(before, f, stuck, path, written, None)
  }

  lemma PartWayCutShort(f: Files, stuck: set<Name>, path: Name, spare: Inode, written: Bytes)
    requires Sane(f) && Unused(f, spare)
    ensures CutShort(f, PartWay(f, stuck, path, spare, written), stuck, path, written)
  {
    StaleMetadata(f, stuck, path, spare, written);
    SharedHeap(f, stuck, path, spare, written);
  }

  /** `begin_replacement` and `PolyML.SaveState.saveChild`. */
  method SaveHeap(d: Disk, path: Name, heap: seq<Bytes>, saveFails: Option<nat>) returns (raised: bool)
    requires d.Valid()
    modifies d`files, d`left, d`next
    ensures d.Valid()
    ensures Removable(old(d.files), d.stuck, OkPath(path)) ==> Unmarked(d.files, path) || (d.left == 0 && Untouched(old(d.files), d.files, path))
    ensures Removable(old(d.files), d.stuck, path) ==> OthersKept(old(d.files), d.files, path)
    ensures d.left > 0 && Removable(old(d.files), d.stuck, TmpPath(path)) ==> Removable(d.files, d.stuck, TmpPath(path))
    ensures d.left > 0 && !raised ==> Content(d.files, path) == Some(Flat(heap))
    ensures d.left == old(d.left) - Min(old(d.left), Tries(heap, saveFails) + 3)
    ensures Tries(heap, saveFails) == |heap| + 1 && old(d.left) >= |heap| + 4 ==>
              && !raised
              && d.files == PartWay(old(d.files), d.stuck, path, old(d.next), Flat(heap))
              && LinksAfter(old(d.files), d.files, d.stuck, path, Flat(heap), None) && SameLinks(old(d.files), d.files, d.stuck, path)
    ensures d.left > 0 ==> (Separate(old(d.files), d.stuck, path) <==> Clear(d.files, d.stuck, path))
    ensures StopsWithin(old(d.left), heap, saveFails) ==>
              d.left == 0 && d.files == PartWay(old(d.files), d.stuck, path, old(d.next), Flat(heap[..old(d.left) - 4]))
              && CutShort(old(d.files), d.files, d.stuck, path, Flat(heap[..old(d.left) - 4]))
    ensures raised ==> saveFails.Some?
  {
    ghost var (f, left) := (d.files, d.left);
    assert Unused(f, d.next);
    Discard(d, path);
    ghost var ops := Min(d.left, Tries(heap, saveFails));
    HeapWrittenSafely(f, d.stuck, path, d.next, heap, ops);
    if StopsWithin(left, heap, saveFails) { PartWayCutShort(f, d.stuck, path, d.next, Flat(heap[..left - 4])); }
    SharedHeap(f, d.stuck, path, d.next, Flat(heap));
    PartWaySameLinks(f, d.stuck, path, d.next, Flat(heap));
    hide Discarded, Written, Content, OthersKept, Removable, Kept, Clear, CutShort, LinksAfter, SameLinks, Flat, Unused, Unmarked, Untouched, Separate;
    assert heap[..|heap|] == heap;
    raised := WritePieces(d, path, heap, saveFails);
  }

  /** `save_checkpoint`. Whatever operation it is stopped after, and wherever it fails:
      if an old metadata file can be removed, there is no metadata, or it and its heap
      are as before, or they are the new ones, whole; and if an old heap and an old
      temporary file can be removed, every other link leads to the same bytes. Stopped
      within the heap, it breaks either promise exactly when the removal it rests on fails. */
  method SaveCheckpoint(d: Disk, path: Name, hadError: bool, heap: seq<Bytes>, text: seq<Bytes>, saveFails: Option<nat>, textFails: Option<nat>, io: bool)
    returns (raised: bool)
    requires d.Valid()
    modifies d`files, d`left, d`next
    ensures d.Valid()
    ensures Removable(old(d.files), d.stuck, OkPath(path)) && Separate(old(d.files), d.stuck, path) ==>
              Unmarked(d.files, path) || Untouched(old(d.files), d.files, path) || Saved(d.files, path, Flat(text), Flat(heap))
    ensures Removable(old(d.files), d.stuck, path) && Removable(old(d.files), d.stuck, TmpPath(path)) ==> OthersKept(old(d.files), d.files, path)
    ensures d.left > 0 && !hadError && saveFails.None? && textFails.None? ==>
              && !raised && Saved(d.files, path, Flat(text), if Separate(old(d.files), d.stuck, path) then Flat(heap) else Flat(text))
              && LinksAfter(old(d.files), d.files, d.stuck, path, Flat(heap), Some(Flat(text)))
    ensures hadError ==> d.files == Discarded(old(d.files), d.stuck, path, Min(old(d.left), 3))
    ensures !hadError && StopsWithin(old(d.left), heap, saveFails) ==>
              CutShort(old(d.files), d.files, d.stuck, path, Flat(heap[..old(d.left) - 4]))
    ensures !hadError && saveFails.None? && StopsInText(old(d.left) - |heap| - 4, text, textFails) ==>
              LinksAfter(old(d.files), d.files, d.stuck, path, Flat(heap), Some(Flat(text[..old(d.left) - |heap| - 6])))
    ensures raised ==> !io
  {
    NamesDiffer(path);
    raised := false;
    if hadError {
      DiscardedSafely(d.files, d.stuck, path, Min(d.left, 3));
      Discard(d, path);
      return;
    }
    ghost var before := d.files;
    raised := SaveHeap(d, path, heap, saveFails);
    assert Unused(d.files, d.next);
    hide LinksAfter, SameLinks, Flat, Content, OthersKept, CutShort;
    if !raised {
      ghost var (between, spare, left) := (d.files, d.next, d.left);
      raised := WriteTextAtomically(d, path, text, textFails);
      if saveFails.None? && left > 0 {
        SharedTmp(before, between, d.stuck, path, Flat(heap), spare, Flat(text));
        if d.left > 0 && !raised { LinksRenamed(before, TmpWritten(between, d.stuck, path, spare, Flat(text)), d.files, d.stuck, path, Flat(heap), Some(Flat(text))); }
        if StopsInText(left, text, textFails) {
          SharedTmp(before, between, d.stuck, path, Flat(heap), spare, Flat(text[..left - 2]));
        }
      }
    }
    if raised && io {
      Discard(d, path);
      raised := false;
    }
  }

  // ------------------------------------------------------------ it happens

  lemma FirstPiece(heap: seq<Bytes>)
    requires |heap| > 0
    ensures Flat(heap[..1]) == heap[0]
  {
    FlatMore(heap, 0);
    assert heap[..0] == [] && [] + heap[0] == heap[0];
  }

  /** Metadata that cannot be removed, and a save stopped after a piece of its heap: the
      old metadata stands beside part of the new heap. */
  method StaleMetadataHappens() returns (d: Disk, raised: bool)
    ensures Content(d.files, "c") == Some("ne") && Content(d.files, "c.ok") == Some("old metadata")
  {
    var heap := ["ne", "w heap"];
    d := new Disk(map["c" := 0, "c.ok" := 1], map[0 := "old heap", 1 := "old metadata"], 2, 5, {"c.ok"});
    FirstPiece(heap);
    assert OkPath("c") == "c.ok";
    hide Flat;
    raised := SaveCheckpoint(d, "c", false, heap, ["new metadata"], None, None, true);
  }

  /** A heap that cannot be removed, and another link to it: the save writes over both. */
  method SharedHeapHappens() returns (d: Disk, raised: bool)
    ensures Content(d.files, "store") == Some("ne")
  {
    var heap := ["ne", "w heap"];
    d := new Disk(map["c" := 0, "store" := 0], map[0 := "old heap"], 1, 5, {"c"});
    FirstPiece(heap);
    assert OkPath("c") == "c.ok" && TmpPath("c") == "c.ok.tmp";
    assert "store"[0] != 'c';
    assert KeptLink(d.files, d.stuck, "c", "store");
    hide Flat;
    raised := SaveCheckpoint(d, "c", false, heap, ["new metadata"], None, None, true);
  }
}
