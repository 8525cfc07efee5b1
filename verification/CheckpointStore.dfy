/** Stored checkpoints: what their metadata says, when they validate, and their removal. */
module CheckpointStore {
  import opened Wrappers
  import opened Text
  import opened Disk
  import opened CheckpointSave

  // ------------------------------------------------------------ metadata

  type Field = (string, string)

  function FieldLines(fields: seq<Field>): (lines: seq<string>)
    ensures |lines| == |fields| && forall i | 0 <= i < |fields| :: lines[i] == fields[i].0 + "=" + fields[i].1
  {
    if fields == [] then [] else [fields[0].0 + "=" + fields[0].1] + FieldLines(fields[1..])
  }

  function OkText(kind: string, fields: seq<Field>): string {
    JoinLines(["holbuild-checkpoint-ok-v2", "kind=" + kind] + FieldLines(fields))
  }

  function MetadataLines(text: string): seq<string> {
    Tokens(IsLineEnd, text, [])
  }

  function MetadataValue(key: string, lines: seq<string>): Option<string> {
    if lines == [] then None
    else if key + "=" <= lines[0] then Some(lines[0][|key| + 1..])
    else MetadataValue(key, lines[1..])
  }

  predicate MatchesFields(wanted: seq<Field>, text: string) {
    var lines := MetadataLines(text);
    "holbuild-checkpoint-ok-v2" in lines && forall field <- wanted :: MetadataValue(field.0, lines) == Some(field.1)
  }

  /** Lines joined are read back. */
  lemma LinesRoundTrip(lines: seq<string>)
    requires lines != [] && AllOneLine(lines) && forall l <- lines :: l != []
    ensures MetadataLines(JoinLines(lines)) == lines
  {
    TokensOfLines(lines);
  }

  predicate IsKey(key: string) {
    '=' !in key && OneLine(key)
  }

  /** A line starts like a field of `key` exactly when it is one. */
  lemma KeyOfLine(key: string, other: string, value: string)
    requires IsKey(key) && IsKey(other)
    ensures key + "=" <= other + "=" + value <==> key == other
    ensures (other + "=" + value)[|other| + 1..] == value
  {
    var line := other + "=" + value;
    if key + "=" <= line {
      var rest := line[|key| + 1..];
      assert line == key + ['='] + rest && line == other + ['='] + value;
      SplitAtSeparator(key, other, '=', rest, value);
    }
  }

  ghost predicate CleanFields(fields: seq<Field>) {
    && (forall f <- fields :: IsKey(f.0) && f.0 != "kind" && OneLine(f.1))
    && forall i, j | 0 <= i < j < |fields| :: fields[i].0 != fields[j].0
  }

  lemma {:induction false} ValueOfField(key: string, fields: seq<Field>, value: string)
    requires CleanFields(fields) && IsKey(key)
    ensures MetadataValue(key, FieldLines(fields)) == Some(value) <==> (key, value) in fields
  {
    if fields != [] {
      var (k, v) := fields[0];
      assert fields[0] in fields;
      KeyOfLine(key, k, v);
      assert FieldLines(fields)[1..] == FieldLines(fields[1..]);
      ValueOfField(key, fields[1..], value);
    }
  }

  /** Metadata written for some fields matches exactly the fields written. */
  lemma MetadataRoundTrip(kind: string, fields: seq<Field>, wanted: seq<Field>)
    requires CleanFields(fields) && OneLine(kind) && forall w <- wanted :: IsKey(w.0) && w.0 != "kind"
    ensures MatchesFields(wanted, OkText(kind, fields)) <==> forall w <- wanted :: w in fields
  {
    var head := ["holbuild-checkpoint-ok-v2", "kind=" + kind];
    var lines := head + FieldLines(fields);
    LinesClean(kind, fields);
    LinesRoundTrip(lines);
    assert "holbuild-checkpoint-ok-v2" == lines[0];
    forall w <- wanted
      ensures MetadataValue(w.0, lines) == Some(w.1) <==> w in fields
    {
      ValueOfField(w.0, fields, w.1);
      PastHead(w.0, kind, fields);
      assert w == (w.0, w.1);
    }
  }

  lemma LinesClean(kind: string, fields: seq<Field>)
    requires CleanFields(fields) && OneLine(kind)
    ensures var lines := ["holbuild-checkpoint-ok-v2", "kind=" + kind] + FieldLines(fields);
            AllOneLine(lines) && forall l <- lines :: l != []
  {
    var rest := FieldLines(fields);
    forall i | 0 <= i < |rest|
      ensures OneLine(rest[i]) && rest[i] != []
    {
      assert fields[i] in fields;
    }
  }

  lemma PrefixHasEquals(key: string, line: string)
    ensures key + "=" <= line ==> '=' in line
  {
    if key + "=" <= line { assert line[|key|] == '='; }
  }

  /** Neither the title nor the kind passes for a field. */
  lemma PastHead(key: string, kind: string, fields: seq<Field>)
    requires IsKey(key) && key != "kind"
    ensures MetadataValue(key, ["holbuild-checkpoint-ok-v2", "kind=" + kind] + FieldLines(fields)) == MetadataValue(key, FieldLines(fields))
  {
    var lines := ["holbuild-checkpoint-ok-v2", "kind=" + kind] + FieldLines(fields);
    var title := "holbuild-checkpoint-ok-v2";
    PrefixHasEquals(key, title);
    KeyOfLine(key, "kind", kind);
    assert lines[1..] == ["kind=" + kind] + FieldLines(fields);
    assert lines[1..][1..] == FieldLines(fields);
  }

  // ------------------------------------------------------------ validity

  predicate CurrentMatches(f: Files, path: Name, matches: Bytes -> bool) {
    match (Content(f, path), Content(f, OkPath(path)))
    case (Some(_), Some(text)) => matches(text)
    case _ => false
  }

  /** Metadata beside a heap was written for that heap, whole. */
  ghost predicate Faithful(f: Files, path: Name, complete: set<(Bytes, Bytes)>) {
    match (Content(f, path), Content(f, OkPath(path)))
    case (Some(heap), Some(text)) => (text, heap) in complete
    case _ => true
  }

  /** So after a save, however it ended, a checkpoint that validates is the complete heap
      its metadata was written for: one from before, or this one. */
  lemma SaveKeepsFaithful(before: Files, after: Files, path: Name, text: Bytes, heap: Bytes, complete: set<(Bytes, Bytes)>)
    requires Faithful(before, path, complete)
    requires Unmarked(after, path) || Untouched(before, after, path) || Saved(after, path, text, heap)
    ensures Faithful(after, path, complete + {(text, heap)})
  {}

  /** A checkpoint that validates is a whole heap, and the metadata written for it. */
  lemma ValidatesWhole(f: Files, path: Name, matches: Bytes -> bool, complete: set<(Bytes, Bytes)>)
    requires Faithful(f, path, complete) && CurrentMatches(f, path, matches)
    ensures exists pair <- complete :: matches(pair.0) && Content(f, path) == Some(pair.1)
  {
    match (Content(f, path), Content(f, OkPath(path)))
    case (Some(heap), Some(text)) => assert (text, heap) in complete;
  }

  // ------------------------------------------------------------ removal

  /** What `remove_checkpoint` removes, in order. */
  const SUFFIXES: seq<string> :=
    [".ok.tmp", ".tmp", ".ok.bak", ".bak", ".ok", ".meta", ".prefix", ".steps",
     ".new", ".new.tmp", ".new.ok", ".new.ok.tmp", ".new.meta", ".new.meta.tmp", ".new.prefix", ".new.prefix.tmp", ""]

  /** Metadata goes before the heap, here too; only the checkpoint's own names go. */
  method RemoveCheckpoint(d: Disk, path: Name)
    requires d.Valid()
    modifies d`files, d`left, d`next
    ensures d.Valid()
    ensures Removable(old(d.files), d.stuck, OkPath(path)) ==> Unmarked(d.files, path) || Untouched(old(d.files), d.files, path)
    ensures forall n | forall s <- SUFFIXES :: n != path + s :: Content(d.files, n) == Content(old(d.files), n)
    ensures d.left > 0 ==> forall s <- SUFFIXES :: path + s !in d.stuck ==> path + s !in d.files.names
  {
    var i := 0;
    while i < |SUFFIXES|
      invariant i <= |SUFFIXES| && d.Valid()
      invariant i <= 4 ==> Untouched(old(d.files), d.files, path)
      invariant Removable(old(d.files), d.stuck, OkPath(path)) ==> Unmarked(d.files, path) || Untouched(old(d.files), d.files, path)
      invariant i > 4 && d.left > 0 && Removable(old(d.files), d.stuck, OkPath(path)) ==> Unmarked(d.files, path)
      invariant forall n | forall s <- SUFFIXES :: n != path + s :: Content(d.files, n) == Content(old(d.files), n)
      invariant forall n <- d.files.names :: n in old(d.files).names
      invariant d.left > 0 ==> forall k | 0 <= k < i :: path + SUFFIXES[k] !in d.stuck ==> path + SUFFIXES[k] !in d.files.names
    {
      assert |path + SUFFIXES[i]| == |path| + |SUFFIXES[i]|;
      assert SUFFIXES[i] in SUFFIXES;
      d.Remove(path + SUFFIXES[i]);
      i := i + 1;
    }
  }

  /** Metadata without a heap is discarded; metadata with one is let be. */
  method RemoveIncompleteResidue(d: Disk, path: Name)
    requires d.Valid()
    modifies d`files, d`left, d`next
    ensures d.Valid()
    ensures path in old(d.files).names || OkPath(path) !in old(d.files).names ==> d.files == old(d.files)
    ensures d.left > 0 && path !in old(d.files).names && OkPath(path) !in d.stuck ==> Unmarked(d.files, path)
    ensures Unmarked(d.files, path) || Untouched(old(d.files), d.files, path)
    ensures forall n | n != OkPath(path) && n != path + ".meta" && n != path + ".prefix" :: Content(d.files, n) == Content(old(d.files), n)
  {
    if OkPath(path) in d.files.names && path !in d.files.names {
      d.Remove(OkPath(path));
      d.Remove(path + ".meta");
      d.Remove(path + ".prefix");
    }
  }

  // ------------------------------------------------------------ whole runs

  /** One process: what it does to the checkpoint, how many operations it gets to, and
      which names it cannot remove. */
  datatype Deed =
    | SaveIt(hadError: bool, heap: seq<Bytes>, text: seq<Bytes>, saveFails: Option<nat>, textFails: Option<nat>, io: bool)
    | DiscardIt
    | RemoveIt
    | SweepIt

  datatype Process = Process(deed: Deed, ops: nat, stuck: set<Name>)

  /** The heaps the processes were to save, each with its metadata. */
  function Pairs(run: seq<Process>): set<(Bytes, Bytes)> {
    set p | p in run && p.deed.SaveIt? :: (Flat(p.deed.text), Flat(p.deed.heap))
  }

  /** Whatever saves, discards, removals and sweeps follow one another, each failing or
      stopped anywhere, metadata beside a heap was written for it, whole; so what
      validates is a complete heap. It needs each process to be able to remove the metadata
      file, and the heap or the temporary file. */
  method RunProcesses(d: Disk, path: Name, run: seq<Process>, ghost complete: set<(Bytes, Bytes)>)
    requires d.Valid() && Faithful(d.files, path, complete)
    requires forall p <- run :: OkPath(path) !in p.stuck && (path !in p.stuck || TmpPath(path) !in p.stuck)
    modifies d
    ensures d.Valid() && Faithful(d.files, path, complete + Pairs(run))
    ensures forall matches: Bytes -> bool | CurrentMatches(d.files, path, matches) ::
              exists pair <- complete + Pairs(run) :: matches(pair.0) && Content(d.files, path) == Some(pair.1)
  {
    assert run[..0] == [] && complete + Pairs([]) == complete;
    for i := 0 to |run|
      invariant d.Valid() && Faithful(d.files, path, complete + Pairs(run[..i]))
    {
      ghost var (before, known) := (d.files, complete + Pairs(run[..i]));
      OneMoreProcess(run, i);
      hide Pairs, Faithful, Flat;
      d.left, d.stuck := run[i].ops, run[i].stuck;
      match run[i].deed {
        case SaveIt(hadError, heap, text, saveFails, textFails, io) =>
          if hadError { DiscardedSafely(d.files, d.stuck, path, Min(d.left, 3)); }
          var raised := SaveCheckpoint(d, path, hadError, heap, text, saveFails, textFails, io);
          SaveKeepsFaithful(before, d.files, path, Flat(text), Flat(heap), known);
          MoreComplete(d.files, path, known + {(Flat(text), Flat(heap))}, complete + Pairs(run[..i + 1]));
        case DiscardIt =>
          Discard(d, path);
          ClearedKeepsFaithful(before, d.files, path, known);
        case RemoveIt =>
          RemoveCheckpoint(d, path);
          ClearedKeepsFaithful(before, d.files, path, known);
        case SweepIt =>
          RemoveIncompleteResidue(d, path);
          ClearedKeepsFaithful(before, d.files, path, known);
      }
      if !run[i].deed.SaveIt? { MoreComplete(d.files, path, known, complete + Pairs(run[..i + 1])); }
    }
    assert run[..|run|] == run;
    forall matches: Bytes -> bool | CurrentMatches(d.files, path, matches)
      ensures exists pair <- complete + Pairs(run) :: matches(pair.0) && Content(d.files, path) == Some(pair.1)
    {
      ValidatesWhole(d.files, path, matches, complete + Pairs(run));
    }
  }

  lemma OneMoreProcess(run: seq<Process>, i: nat)
    requires i < |run|
    ensures Pairs(run[..i]) <= Pairs(run[..i + 1])
    ensures match run[i].deed
            case SaveIt(_, heap, text, _, _, _) => (Flat(text), Flat(heap)) in Pairs(run[..i + 1])
            case _ => true
  {
    assert run[..i + 1] == run[..i] + [run[i]];
  }

  lemma MoreComplete(f: Files, path: Name, some: set<(Bytes, Bytes)>, more: set<(Bytes, Bytes)>)
    requires Faithful(f, path, some) && some <= more
    ensures Faithful(f, path, more)
  {}

  lemma ClearedKeepsFaithful(before: Files, after: Files, path: Name, complete: set<(Bytes, Bytes)>)
    requires Faithful(before, path, complete) && (Unmarked(after, path) || Untouched(before, after, path))
    ensures Faithful(after, path, complete)
  {}
}
