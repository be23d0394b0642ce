/** The part of the operating system the tools use: a directory holds files by
    name; each call that changes a directory may fail, and a failed call
    changes nothing. A call fails when its file is missing or when a name it
    touches is `locked` (held open by another program, read-only, and the
    like); reading a present file always succeeds. */
module FileSystem {
  import opened Names

  /** A file: its size in bytes and, for the log files the tools read and
      write, its text as a sequence of lines (without their line breaks). */
  datatype File = File(size: nat, lines: seq<string>)

  /** The size of a text file holding `lines`, one byte per character and a
      line break after each line. */
  function TextSize(lines: seq<string>): (n: nat)
    ensures n >= |lines|
  {
    if lines == [] then 0 else TextSize(lines[..|lines| - 1]) + |lines[|lines| - 1]| + 1
  }

  function TextFile(lines: seq<string>): File {
    File(TextSize(lines), lines)
  }

  /** The lines of `name`, or none when no such file exists. */
  function LinesOf(files: map<string, File>, name: string): seq<string> {
    if name in files then files[name].lines else []
  }

  /** `os.listdir`: every name of the directory exactly once, in an order
      the operating system chooses. */
  predicate IsListing(names: seq<string>, files: map<string, File>) {
    NoDup(names) && (forall n :: n in names ==> n in files) && (forall n :: n in files ==> n in names)
  }

  predicate Sorted(names: seq<string>) {
    forall i, j :: 0 <= i < j < |names| ==> LexLe(names[i], names[j])
  }

  /** `os.remove` succeeds on a present file whose name is not locked. */
  predicate CanRemove(files: map<string, File>, locked: set<string>, name: string) {
    name in files && name !in locked
  }

  /** `os.rename` succeeds on a present, unlocked source when the target
      name is free and unlocked (on Windows it refuses to replace a file). */
  predicate CanRename(files: map<string, File>, locked: set<string>, src: string, dst: string) {
    src in files && src !in locked && dst !in locked && dst !in files
  }

  function Renamed(files: map<string, File>, src: string, dst: string): map<string, File>
    requires src in files
  {
    (files - {src})[dst := files[src]]
  }

  /** `shutil.move` to another directory succeeds on a present, unlocked
      source when the target name is unlocked; a file already there is
      replaced. */
  predicate CanMove(from: map<string, File>, fromLocked: set<string>, src: string,
                    toLocked: set<string>, dst: string) {
    src in from && src !in fromLocked && dst !in toLocked
  }

  /** `m` is a least element of `s` in `LexLe`. */
  predicate IsLeast(m: string, s: set<string>) {
    m in s && forall r :: r in s ==> LexLe(m, r)
  }

  /** Every non-empty finite set of names has a least element in `LexLe`. */
  lemma {:induction false} LeastExists(s: set<string>)
    requires s != {}
    ensures exists m :: IsLeast(m, s)
    decreases |s|
  {
    var x :| x in s;
    LexLeReflexive(x);
    if s == {x} {
      assert IsLeast(x, s);
    } else {
      var rest := s - {x};
      LeastExists(rest);
      var m :| IsLeast(m, rest);
      LexLeTotal(x, m);
      if LexLe(x, m) {
        forall r | r in s ensures LexLe(x, r) {
          if r != x { LexLeTransitive(x, m, r); }
        }
        assert IsLeast(x, s);
      } else {
        assert IsLeast(m, s);
      }
    }
  }

  lemma {:induction false} LexLeReflexive(a: string)
    ensures LexLe(a, a)
  {
    if a != [] { LexLeReflexive(a[1..]); }
  }

  class Directory {
    var files: map<string, File>
    const locked: set<string>

    constructor (files: map<string, File>, locked: set<string>)
      ensures this.files == files && this.locked == locked
    {
      this.files := files;
      this.locked := locked;
    }

    /** `os.listdir`, in an order the operating system chooses. */
    method Listing() returns (names: seq<string>)
      ensures IsListing(names, files)
    {
      var rest := files.Keys;
      names := [];
      while rest != {}
        invariant rest <= files.Keys
        invariant forall n :: n in names <==> n in files && n !in rest
        invariant NoDup(names)
        decreases |rest|
      {
        var n :| n in rest;
        names := names + [n];
        rest := rest - {n};
      }
    }

    /** `os.listdir` followed by `list.sort()`. */
    method SortedListing() returns (names: seq<string>)
      ensures IsListing(names, files)
      ensures Sorted(names)
    {
      var rest := files.Keys;
      names := [];
      while rest != {}
        invariant rest <= files.Keys
        invariant forall n :: n in names <==> n in files && n !in rest
        invariant NoDup(names)
        invariant Sorted(names)
        invariant forall i, r :: 0 <= i < |names| && r in rest ==> LexLe(names[i], r)
        decreases |rest|
      {
        LeastExists(rest);
        var m :| IsLeast(m, rest);
        names := names + [m];
        rest := rest - {m};
      }
    }

    /** `os.remove`. */
    method Remove(name: string) returns (ok: bool)
      modifies this
      ensures ok == CanRemove(old(files), locked, name)
      ensures files == if ok then old(files) - {name} else old(files)
    {
      ok := CanRemove(files, locked, name);
      if ok {
        files := files - {name};
      }
    }

    /** `os.rename` within this directory. */
    method Rename(src: string, dst: string) returns (ok: bool)
      modifies this
      ensures ok == CanRename(old(files), locked, src, dst)
      ensures files == if ok then Renamed(old(files), src, dst) else old(files)
    {
      ok := CanRename(files, locked, src, dst);
      if ok {
        files := Renamed(files, src, dst);
      }
    }

    /** `open(name, "w")` and writing `lines`, one per line. */
    method WriteLines(name: string, lines: seq<string>) returns (ok: bool)
      modifies this
      ensures ok == (name !in locked)
      ensures files == if ok then old(files)[name := TextFile(lines)] else old(files)
    {
      ok := name !in locked;
      if ok {
        files := files[name := TextFile(lines)];
      }
    }

    /** Writing one line to `name` opened with `open(name, "a")`: the line
        goes after the existing text; a missing file is created. */
    method AppendLine(name: string, line: string) returns (ok: bool)
      modifies this
      ensures ok == (name !in locked)
      ensures files == if ok then old(files)[name := TextFile(LinesOf(old(files), name) + [line])]
                       else old(files)
    {
      ok := name !in locked;
      if ok {
        files := files[name := TextFile(LinesOf(files, name) + [line])];
      }
    }
  }

  /** `shutil.move(from/src, to/dst)` between two directories. */
  method Move(from: Directory, src: string, to: Directory, dst: string) returns (ok: bool)
    requires from != to
    modifies from, to
    ensures ok == CanMove(old(from.files), from.locked, src, to.locked, dst)
    ensures from.files == if ok then old(from.files) - {src} else old(from.files)
    ensures to.files == if ok then old(to.files)[dst := old(from.files)[src]] else old(to.files)
  {
    ok := CanMove(from.files, from.locked, src, to.locked, dst);
    if ok {
      var f := from.files[src];
      from.files := from.files - {src};
      to.files := to.files[dst := f];
    }
  }
}
