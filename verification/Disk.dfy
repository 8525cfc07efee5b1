/** A directory tree as a process that may be stopped between any two of its
    operations sees it: names, and the files they are links to. */
module Disk {
  import opened Wrappers

  type Name = string
  type Bytes = seq<char>
  type Inode = nat

  /** What is on disk: several names may lead to one file. */
  datatype Files = Files(names: map<Name, Inode>, bytes: map<Inode, Bytes>)

  ghost predicate Sane(f: Files) {
    forall n <- f.names :: f.names[n] in f.bytes
  }

  function Content(f: Files, name: Name): Option<Bytes> {
    if name in f.names && f.names[name] in f.bytes then Some(f.bytes[f.names[name]]) else None
  }

  function Removed(f: Files, name: Name): Files {
    f.(names := map n | n in f.names && n != name :: f.names[n])
  }

  /** Opening to write: the file the name leads to is emptied, or a new one made. */
  function Opened(f: Files, name: Name, spare: Inode): Files {
    if name in f.names then f.(bytes := f.bytes[f.names[name] := []])
    else Files(f.names[name := spare], f.bytes[spare := []])
  }

  /** A name's file with these bytes: written anew, or over the file the name leads to. */
  function Written(f: Files, name: Name, spare: Inode, content: Bytes): Files {
    if name in f.names then f.(bytes := f.bytes[f.names[name] := content])
    else Files(f.names[name := spare], f.bytes[spare := content])
  }

  /** Writing piece by piece. */
  lemma WritingOn(f: Files, name: Name, spare: Inode, content: Bytes, piece: Bytes)
    ensures Opened(f, name, spare) == Written(f, name, spare, [])
    ensures var w := Written(f, name, spare, content);
            name in w.names && Appended(w, w.names[name], piece) == Written(f, name, spare, content + piece)
  {}

  /** What is read afterwards: the new bytes under the name and under every other name
      of the file it led to, and what was there under the rest. */
  lemma WrittenContent(f: Files, name: Name, spare: Inode, content: Bytes, other: Name)
    requires Sane(f) && Unused(f, spare)
    ensures Content(Written(f, name, spare, content), other) ==
            if other == name || (name in f.names && other in f.names && f.names[other] == f.names[name])
            then Some(content) else Content(f, other)
  {}

  function Appended(f: Files, file: Inode, piece: Bytes): Files {
    if file in f.bytes then f.(bytes := f.bytes[file := f.bytes[file] + piece]) else f
  }

  function Renamed(f: Files, from: Name, to: Name): Files {
    if from in f.names then f.(names := Removed(f, from).names[to := f.names[from]]) else f
  }

  lemma RenamedContent(f: Files, from: Name, to: Name, other: Name)
    requires from != to && from in f.names
    ensures Content(Renamed(f, from, to), other) == if other == to then Content(f, from) else if other == from then None else Content(f, other)
    ensures other in Renamed(f, from, to).names <==> other == to || (other != from && other in f.names)
  {}

  function Flat(pieces: seq<Bytes>): Bytes {
    if pieces == [] then [] else Flat(pieces[..|pieces| - 1]) + pieces[|pieces| - 1]
  }

  /** A number no file has. */
  ghost predicate Unused(f: Files, spare: Inode) {
    spare !in f.bytes && forall n <- f.names :: f.names[n] != spare
  }

  /** The disk of one process. It is stopped once it has done `left` operations more;
      removing a name in `stuck` fails. */
  class Disk {
    var files: Files
    var next: Inode
    var left: nat
    var stuck: set<Name>

    ghost predicate Valid()
      reads this
    {
      Sane(files) && (forall i <- files.bytes :: i < next)
    }

    constructor (names: map<Name, Inode>, bytes: map<Inode, Bytes>, next: Inode, left: nat, stuck: set<Name>)
      requires Sane(Files(names, bytes)) && forall i <- bytes :: i < next
      ensures Valid() && files == Files(names, bytes) && this.next == next && this.left == left && this.stuck == stuck
    {
      files := Files(names, bytes);
      this.next := next;
      this.left := left;
      this.stuck := stuck;
    }

    /** `remove_file`: errors are ignored. */
    method Remove(name: Name)
      requires Valid()
      modifies this`files, this`left, this`next
      ensures Valid() && next == old(next)
      ensures left == if old(left) == 0 then 0 else old(left) - 1
      ensures files == if old(left) == 0 || name in stuck then old(files) else Removed(old(files), name)
    {
      if left == 0 { return; }
      left := left - 1;
      if name !in stuck {
        files := Removed(files, name);
      }
    }

    method Open(name: Name) returns (file: Inode)
      requires Valid()
      modifies this`files, this`left, this`next
      ensures Valid() && Unused(old(files), old(next))
      ensures left == if old(left) == 0 then 0 else old(left) - 1
      ensures files == if old(left) == 0 then old(files) else Opened(old(files), name, old(next))
      ensures old(left) > 0 ==> file == files.names[name]
    {
      file := next;
      if left == 0 { return; }
      left := left - 1;
      files := Opened(files, name, next);
      file := files.names[name];
      next := next + 1;
    }

    method Append(file: Inode, piece: Bytes)
      requires Valid()
      modifies this`files, this`left, this`next
      ensures Valid()
      ensures left == if old(left) == 0 then 0 else old(left) - 1
      ensures files == if old(left) == 0 then old(files) else Appended(old(files), file, piece)
    {
      if left == 0 { return; }
      left := left - 1;
      files := Appended(files, file, piece);
    }

    method Rename(from: Name, to: Name)
      requires Valid()
      modifies this`files, this`left, this`next
      ensures Valid()
      ensures left == if old(left) == 0 then 0 else old(left) - 1
      ensures files == if old(left) == 0 then old(files) else Renamed(old(files), from, to)
    {
      if left == 0 { return; }
      left := left - 1;
      files := Renamed(files, from, to);
    }
  }
}
