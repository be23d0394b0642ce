/** clean.py: one cleanup pass over a working directory's `output` folder.
    It resolves numbered duplicates by size (plan first, then all deletes,
    then guarded renames), removes unfinished downloads, rebuilds
    `processed.log` from what the folder now holds and drops from
    `failed.log` every entry that has since succeeded. */
module Clean {
  import opened Names
  import opened Variant
  import opened FileSystem

  /** A queued `os.rename(src, dst)` inside the output folder. */
  datatype RenameOp = RenameOp(src: string, dst: string)

  /** `to_delete` and `to_rename` as the planning loop leaves them. */
  datatype Plan = Plan(deletes: seq<string>, renames: seq<RenameOp>)

  /** The case-insensitive `.log` test of the planning loop. */
  predicate IsLogName(name: string) {
    EndsWith(Lower(name), ".log")
  }

  /** Looking at the listed file `x`, the planner queues `d` for deletion:
      `x` is a numbered variant whose sibling exists, and either the
      sibling is at least as large (the variant goes: a tie keeps the
      sibling) or the variant is larger (the sibling goes). */
  predicate DeleteReason(files: map<string, File>, x: string, d: string) {
    x in files && !IsLogName(x) && Parse(x).Some? && DeletesOver(files, x, Sibling(Parse(x).value), d)
  }

  predicate DeletesOver(files: map<string, File>, x: string, sib: string, d: string)
    requires x in files
  {
    sib in files && ((d == x && files[sib].size >= files[x].size) || (d == sib && files[x].size > files[sib].size))
  }

  /** Looking at the listed file `x`, the planner queues the rename of `x`
      onto its sibling: the sibling is missing, or it is smaller. */
  predicate RenameReason(files: map<string, File>, x: string, r: RenameOp) {
    x in files && !IsLogName(x) && Parse(x).Some? && RenamesOver(files, x, Sibling(Parse(x).value), r)
  }

  predicate RenamesOver(files: map<string, File>, x: string, sib: string, r: RenameOp)
    requires x in files
  {
    r == RenameOp(x, sib) && (sib !in files || files[x].size > files[sib].size)
  }

  /** What one turn of the planning loop queues (clean.py:43-75). */
  function PlanFor(files: map<string, File>, name: string): Plan
    requires name in files
  {
    if IsLogName(name) then Plan([], [])
    else match Parse(name)
      case None => Plan([], [])
      case Some(v) => SizePlan(files, name, Sibling(v))
  }

  /** The size comparison of one turn, between the variant `name` and its
      sibling `sib`. */
  function SizePlan(files: map<string, File>, name: string, sib: string): Plan
    requires name in files
  {
    if sib in files then
      if files[name].size == files[sib].size then Plan([name], [])
      else if files[sib].size > files[name].size then Plan([name], [])
      else Plan([sib], [RenameOp(name, sib)])
    else Plan([], [RenameOp(name, sib)])
  }

  lemma SizePlanReasons(files: map<string, File>, name: string, sib: string)
    requires name in files
    ensures |SizePlan(files, name, sib).deletes| <= 1 && |SizePlan(files, name, sib).renames| <= 1
    ensures forall d :: d in SizePlan(files, name, sib).deletes <==> DeletesOver(files, name, sib, d)
    ensures forall r :: r in SizePlan(files, name, sib).renames <==> RenamesOver(files, name, sib, r)
  {
  }

  /** One turn queues at most one deletion and one rename, and queues
      exactly what the size-tie policy gives a reason for. */
  lemma PlanForReasons(files: map<string, File>, name: string)
    requires name in files
    ensures |PlanFor(files, name).deletes| <= 1 && |PlanFor(files, name).renames| <= 1
    ensures forall d :: d in PlanFor(files, name).deletes <==> DeleteReason(files, name, d)
    ensures forall r :: r in PlanFor(files, name).renames <==> RenameReason(files, name, r)
  {
    if !IsLogName(name) && Parse(name).Some? {
      SizePlanReasons(files, name, Sibling(Parse(name).value));
    }
  }

  /** The plan for a whole listing: each file's queue entries, in listing
      order. */
  function PlanOf(files: map<string, File>, listing: seq<string>): Plan
    requires forall x :: x in listing ==> x in files
  {
    if listing == [] then Plan([], [])
    else
      var p := PlanOf(files, listing[..|listing| - 1]);
      var q := PlanFor(files, listing[|listing| - 1]);
      Plan(p.deletes + q.deletes, p.renames + q.renames)
  }

  /** A name is queued for deletion, or a rename is queued, exactly when
      some listed file gives the planner a reason for it. */
  lemma {:induction false} PlanOfReasons(files: map<string, File>, listing: seq<string>)
    requires forall x :: x in listing ==> x in files
    ensures forall d :: d in PlanOf(files, listing).deletes <==> exists x :: x in listing && DeleteReason(files, x, d)
    ensures forall r :: r in PlanOf(files, listing).renames <==> exists x :: x in listing && RenameReason(files, x, r)
  {
    if listing != [] {
      var x := listing[|listing| - 1];
      var front := listing[..|listing| - 1];
      PlanOfReasons(files, front);
      PlanForReasons(files, x);
      assert forall y :: y in listing <==> y in front || y == x;
    }
  }

  /** No `.log` file is ever queued, neither as a variant nor as the sibling
      of one: a variant and its sibling share their extension. */
  lemma PlanSkipsLogs(files: map<string, File>, listing: seq<string>)
    requires forall x :: x in listing ==> x in files
    ensures forall d :: d in PlanOf(files, listing).deletes ==> !IsLogName(d)
    ensures forall r :: r in PlanOf(files, listing).renames ==> !IsLogName(r.src) && !IsLogName(r.dst)
  {
    var p := PlanOf(files, listing);
    PlanOfReasons(files, listing);
    forall d | d in p.deletes ensures !IsLogName(d) {
      var x :| x in listing && DeleteReason(files, x, d);
      DeleteReasonNotLog(files, x, d);
    }
    forall r | r in p.renames ensures !IsLogName(r.src) && !IsLogName(r.dst) {
      var x :| x in listing && RenameReason(files, x, r);
      RenameReasonNotLog(files, x, r);
    }
  }

  lemma DeleteReasonNotLog(files: map<string, File>, x: string, d: string)
    requires DeleteReason(files, x, d)
    ensures !IsLogName(d)
  {
    LogEndingShared(Parse(x).value);
  }

  lemma RenameReasonNotLog(files: map<string, File>, x: string, r: RenameOp)
    requires RenameReason(files, x, r)
    ensures !IsLogName(r.src) && !IsLogName(r.dst)
  {
    LogEndingShared(Parse(x).value);
  }

  /** Every queued rename moves a variant onto a strictly shorter name, its
      sibling; so no rename is queued onto its own source. */
  lemma PlanRenamesShorten(files: map<string, File>, listing: seq<string>)
    requires forall x :: x in listing ==> x in files
    ensures forall r :: r in PlanOf(files, listing).renames ==> |r.dst| + 3 <= |r.src|
  {
    PlanOfReasons(files, listing);
    forall r | r in PlanOf(files, listing).renames ensures |r.dst| + 3 <= |r.src| {
      var x :| x in listing && RenameReason(files, x, r);
    }
  }

  /** The planning loop of clean.py:43-75. It only reads the folder. */
  method MakePlan(dir: Directory, listing: seq<string>) returns (toDelete: seq<string>, toRename: seq<RenameOp>)
    requires IsListing(listing, dir.files)
    ensures Plan(toDelete, toRename) == PlanOf(dir.files, listing)
  {
    toDelete, toRename := [], [];
    for i := 0 to |listing|
      invariant Plan(toDelete, toRename) == PlanOf(dir.files, listing[..i])
    {
      var fname := listing[i];
      assert listing[..i] + [fname] == listing[..i + 1];
      PlanOfSnoc(dir.files, listing[..i], fname);
      var dels, rens := PlanTurn(dir.files, fname);
      toDelete := toDelete + dels;
      toRename := toRename + rens;
    }
    assert listing[..|listing|] == listing;
  }

  /** One turn of the planning loop: what it queues for the listed file
      `fname`. */
  method PlanTurn(files: map<string, File>, fname: string) returns (dels: seq<string>, rens: seq<RenameOp>)
    requires fname in files
    ensures Plan(dels, rens) == PlanFor(files, fname)
  {
    dels, rens := [], [];
    if IsLogName(fname) {
      return;
    }
    var m := Parse(fname);
    if m.Some? {
      var sib := Sibling(m.value);
      if sib in files {
        var sizeEnc := files[fname].size;
        var sizeOrig := files[sib].size;
        if sizeEnc == sizeOrig {
          dels := [fname];
        } else if sizeOrig > sizeEnc {
          dels := [fname];
        } else {
          dels := [sib];
          rens := [RenameOp(fname, sib)];
        }
      } else {
        rens := [RenameOp(fname, sib)];
      }
    }
  }

  /** The folder and the failures after the delete loop. */
  datatype DeleteRun = DeleteRun(files: map<string, File>, failed: seq<string>)

  /** The delete loop of clean.py:81-87: a queued name still present is
      removed; a removal that fails is reported and the loop goes on. */
  function DeleteAll(files: map<string, File>, locked: set<string>, dels: seq<string>): DeleteRun {
    if dels == [] then DeleteRun(files, [])
    else
      var r := DeleteAll(files, locked, dels[..|dels| - 1]);
      var d := dels[|dels| - 1];
      if d !in r.files then r
      else if d in locked then DeleteRun(r.files, r.failed + [d])
      else DeleteRun(r.files - {d}, r.failed)
  }

  /** The delete loop removes exactly the queued names that are not locked,
      whatever the order and the repetitions, and reports exactly the
      queued names that are present and locked. */
  lemma {:induction false} DeleteAllResult(files: map<string, File>, locked: set<string>, dels: seq<string>)
    ensures DeleteAll(files, locked, dels).files == files - (set d | d in dels && d !in locked)
    ensures forall d :: d in DeleteAll(files, locked, dels).failed <==> d in dels && d in files && d in locked
  {
    if dels != [] {
      var front := dels[..|dels| - 1];
      DeleteAllResult(files, locked, front);
      assert forall y :: y in dels <==> y in front || y == dels[|dels| - 1];
    }
  }

  method ExecuteDeletes(dir: Directory, toDelete: seq<string>) returns (failed: seq<string>)
    modifies dir
    ensures DeleteRun(dir.files, failed) == DeleteAll(old(dir.files), dir.locked, toDelete)
  {
    failed := [];
    for i := 0 to |toDelete|
      invariant DeleteRun(dir.files, failed) == DeleteAll(old(dir.files), dir.locked, toDelete[..i])
    {
      assert toDelete[..i + 1][..i] == toDelete[..i];
      var path := toDelete[i];
      if path in dir.files {
        var ok := dir.Remove(path);
        if !ok {
          failed := failed + [path];
        }
      }
    }
    assert toDelete[..|toDelete|] == toDelete;
  }

  /** The folder after the rename loop, the renames done and those that
      failed. */
  datatype RenameRun = RenameRun(files: map<string, File>, done: seq<RenameOp>, failed: seq<RenameOp>)

  /** The rename loop of clean.py:90-98: a rename is tried only when its
      source exists and its target does not; one that fails is reported
      and the loop goes on. */
  function RenameAll(files: map<string, File>, locked: set<string>, rens: seq<RenameOp>): RenameRun {
    if rens == [] then RenameRun(files, [], [])
    else
      var r := RenameAll(files, locked, rens[..|rens| - 1]);
      var op := rens[|rens| - 1];
      if !(op.src in r.files && op.dst !in r.files) then r
      else if CanRename(r.files, locked, op.src, op.dst) then
        RenameRun(Renamed(r.files, op.src, op.dst), r.done + [op], r.failed)
      else RenameRun(r.files, r.done, r.failed + [op])
  }

  function Sources(rens: seq<RenameOp>): set<string> {
    set r | r in rens :: r.src
  }

  /** A rename never overwrites: a file that is no queued rename's source
      is still there afterwards, unchanged, and the folder keeps its number
      of files. */
  lemma {:induction false} RenameNeverClobbers(files: map<string, File>, locked: set<string>, rens: seq<RenameOp>)
    ensures forall n :: n in files && n !in Sources(rens) ==>
      n in RenameAll(files, locked, rens).files && RenameAll(files, locked, rens).files[n] == files[n]
    ensures |RenameAll(files, locked, rens).files| == |files|
  {
    if rens != [] {
      var front := rens[..|rens| - 1];
      var op := rens[|rens| - 1];
      RenameNeverClobbers(files, locked, front);
      assert Sources(rens) == Sources(front) + {op.src} by {
        assert forall r :: r in rens <==> r in front || r == op;
      }
      var r := RenameAll(files, locked, front);
      if op.src in r.files && op.dst !in r.files && CanRename(r.files, locked, op.src, op.dst) {
        assert |r.files - {op.src}| == |r.files| - 1;
      }
    }
  }

  /** Every rename reported done or failed was queued; one that is done
      touched no locked name, one that failed met a locked source or
      target, and none is counted twice. */
  lemma {:induction false} RenameOutcomes(files: map<string, File>, locked: set<string>, rens: seq<RenameOp>)
    ensures forall op :: op in RenameAll(files, locked, rens).done ==>
      op in rens && op.src !in locked && op.dst !in locked
    ensures forall op :: op in RenameAll(files, locked, rens).failed ==>
      op in rens && (op.src in locked || op.dst in locked)
    ensures |RenameAll(files, locked, rens).done| + |RenameAll(files, locked, rens).failed| <= |rens|
  {
    if rens != [] {
      var front := rens[..|rens| - 1];
      RenameOutcomes(files, locked, front);
      assert forall op :: op in front ==> op in rens;
    }
  }

  function CountOnto(done: seq<RenameOp>, dst: string): nat {
    if done == [] then 0
    else CountOnto(done[..|done| - 1], dst) + (if done[|done| - 1].dst == dst then 1 else 0)
  }

  /** Of several renames queued onto the same target, at most one happens
      when that target is not itself queued to move away: after the first,
      the target exists and blocks the others. */
  lemma {:induction false} AtMostOneOnto(files: map<string, File>, locked: set<string>, rens: seq<RenameOp>, t: string)
    requires t !in Sources(rens)
    ensures CountOnto(RenameAll(files, locked, rens).done, t) <= 1
    ensures CountOnto(RenameAll(files, locked, rens).done, t) == 1 ==> t in RenameAll(files, locked, rens).files
    ensures t in files ==> CountOnto(RenameAll(files, locked, rens).done, t) == 0
  {
    if rens != [] {
      var front := rens[..|rens| - 1];
      var op := rens[|rens| - 1];
      assert Sources(front) <= Sources(rens) by {
        assert forall r :: r in front ==> r in rens;
      }
      assert op.src in Sources(rens);
      AtMostOneOnto(files, locked, front, t);
      RenameNeverClobbers(files, locked, front);
      var r := RenameAll(files, locked, front);
      var r' := RenameAll(files, locked, rens);
      if op.src in r.files && op.dst !in r.files && CanRename(r.files, locked, op.src, op.dst) {
        assert r'.done == r.done + [op] && r'.files == Renamed(r.files, op.src, op.dst);
        assert r'.done[..|r'.done| - 1] == r.done;
        assert CountOnto(r'.done, t) == CountOnto(r.done, t) + (if op.dst == t then 1 else 0);
        assert t in r.files ==> t in r'.files;
        assert op.dst in r'.files;
      } else {
        assert r'.done == r.done && r'.files == r.files;
      }
    }
  }

  method ExecuteRenames(dir: Directory, toRename: seq<RenameOp>) returns (failed: seq<RenameOp>, ghost done: seq<RenameOp>)
    modifies dir
    ensures RenameRun(dir.files, done, failed) == RenameAll(old(dir.files), dir.locked, toRename)
  {
    failed, done := [], [];
    for i := 0 to |toRename|
      invariant RenameRun(dir.files, done, failed) == RenameAll(old(dir.files), dir.locked, toRename[..i])
    {
      assert toRename[..i + 1][..i] == toRename[..i];
      var op := toRename[i];
      if op.src in dir.files && op.dst !in dir.files {
        var ok := dir.Rename(op.src, op.dst);
        if ok {
          done := done + [op];
        } else {
          failed := failed + [op];
        }
      }
    }
    assert toRename[..|toRename|] == toRename;
  }

  /** `temp_exts`: the endings of unfinished downloads. */
  const TempExts: seq<string> := [".tmp", ".crdownload", ".opdownload"]

  predicate IsTemp(name: string) {
    EndsWithAny(Lower(name), TempExts)
  }

  /** The unfinished downloads among `names` that can be removed. */
  function RemovableTemps(names: seq<string>, locked: set<string>): set<string> {
    set n | n in names && IsTemp(n) && n !in locked
  }

  /** The folder after the temp sweep, the number of removals and the
      removals that failed. */
  datatype SweepRun = SweepRun(files: map<string, File>, deleted: nat, failed: seq<string>)

  /** The temp sweep of clean.py:111-119: each listed unfinished download is
      removed and counted; a removal that fails is reported and the sweep
      goes on. */
  function Sweep(files: map<string, File>, locked: set<string>, names: seq<string>): SweepRun {
    if names == [] then SweepRun(files, 0, [])
    else
      var r := Sweep(files, locked, names[..|names| - 1]);
      var n := names[|names| - 1];
      if !IsTemp(n) then r
      else if CanRemove(r.files, locked, n) then SweepRun(r.files - {n}, r.deleted + 1, r.failed)
      else SweepRun(r.files, r.deleted, r.failed + [n])
  }

  /** Over a listing of the folder, the sweep removes exactly the unlocked
      unfinished downloads, counts each of them once, and reports exactly
      the locked ones. */
  lemma {:induction false} SweepResult(files: map<string, File>, locked: set<string>, names: seq<string>)
    requires NoDup(names) && forall n :: n in names ==> n in files
    ensures Sweep(files, locked, names).files == files - RemovableTemps(names, locked)
    ensures Sweep(files, locked, names).deleted == |RemovableTemps(names, locked)|
  {
    if names != [] {
      var front := names[..|names| - 1];
      var n := names[|names| - 1];
      SweepResult(files, locked, front);
      assert names == front + [n];
      assert n !in front by {
        assert forall k :: 0 <= k < |front| ==> names[k] != names[|names| - 1];
      }
      var r := Sweep(files, locked, front);
      SweepStep(files, locked, front, n, r.files, r.deleted);
    }
  }

  /** The step of that induction, over the folder and count so far. */
  lemma SweepStep(files: map<string, File>, locked: set<string>, front: seq<string>, n: string,
                  rest: map<string, File>, deleted: nat)
    requires n !in front && n in files
    requires rest == files - RemovableTemps(front, locked) && deleted == |RemovableTemps(front, locked)|
    ensures !IsTemp(n) ==>
      rest == files - RemovableTemps(front + [n], locked) && deleted == |RemovableTemps(front + [n], locked)|
    ensures IsTemp(n) && CanRemove(rest, locked, n) ==>
      rest - {n} == files - RemovableTemps(front + [n], locked) && deleted + 1 == |RemovableTemps(front + [n], locked)|
    ensures IsTemp(n) && !CanRemove(rest, locked, n) ==>
      rest == files - RemovableTemps(front + [n], locked) && deleted == |RemovableTemps(front + [n], locked)|
  {
    RemovableSnoc(front, n, locked);
  }

  /** Over a listing of the folder, the sweep reports exactly the locked
      unfinished downloads. */
  lemma {:induction false} SweepFailures(files: map<string, File>, locked: set<string>, names: seq<string>)
    requires NoDup(names) && forall n :: n in names ==> n in files
    ensures forall n :: n in Sweep(files, locked, names).failed <==> n in names && IsTemp(n) && n in locked
  {
    if names != [] {
      var front := names[..|names| - 1];
      var n := names[|names| - 1];
      SweepFailures(files, locked, front);
      SweepResult(files, locked, front);
      assert names == front + [n];
      assert n !in front by {
        assert forall k :: 0 <= k < |front| ==> names[k] != names[|names| - 1];
      }
      assert forall y :: y in names <==> y in front || y == n;
    }
  }

  /** One more listed name adds itself to the removable downloads when it
      is one, and the set grows by one exactly then. */
  lemma RemovableSnoc(front: seq<string>, n: string, locked: set<string>)
    requires n !in front
    ensures forall y :: y in front + [n] <==> y in front || y == n
    ensures IsTemp(n) && n !in locked ==>
      RemovableTemps(front + [n], locked) == RemovableTemps(front, locked) + {n}
      && |RemovableTemps(front + [n], locked)| == |RemovableTemps(front, locked)| + 1
    ensures !(IsTemp(n) && n !in locked) ==> RemovableTemps(front + [n], locked) == RemovableTemps(front, locked)
  {
    assert forall y :: y in front + [n] <==> y in front || y == n;
  }

  method SweepTemps(dir: Directory, listing: seq<string>) returns (deleted: nat, failed: seq<string>)
    modifies dir
    ensures SweepRun(dir.files, deleted, failed) == Sweep(old(dir.files), dir.locked, listing)
  {
    deleted, failed := 0, [];
    for i := 0 to |listing|
      invariant SweepRun(dir.files, deleted, failed) == Sweep(old(dir.files), dir.locked, listing[..i])
    {
      assert listing[..i + 1][..i] == listing[..i];
      var fname := listing[i];
      if IsTemp(fname) {
        var ok := dir.Remove(fname);
        if ok {
          deleted := deleted + 1;
        } else {
          failed := failed + [fname];
        }
      }
    }
    assert listing[..|listing|] == listing;
  }

  /** `valid_stems`: the stems of the folder's files, leaving out those whose
      name ends in `.log` (this test is case-sensitive). */
  function ValidStems(names: set<string>): set<string> {
    set f | f in names && !EndsWith(f, ".log") :: Stem(f)
  }

  /** The new `processed.log`: the source files, in order, whose stem is
      exactly the stem of some file in the output folder. */
  function ProcessedFrom(sources: seq<string>, stems: set<string>): (r: seq<string>)
    ensures |r| <= |sources|
  {
    if sources == [] then []
    else
      var x := sources[|sources| - 1];
      var front := ProcessedFrom(sources[..|sources| - 1], stems);
      if Stem(x) in stems then front + [x] else front
  }

  /** The rebuilt list holds exactly the sources whose stem is in the output
      folder, and each of them once when the sources are distinct. */
  lemma {:induction false} ProcessedFromMembers(sources: seq<string>, stems: set<string>)
    ensures forall x :: x in ProcessedFrom(sources, stems) <==> x in sources && Stem(x) in stems
    ensures NoDup(sources) ==> NoDup(ProcessedFrom(sources, stems))
  {
    if sources != [] {
      var front := sources[..|sources| - 1];
      var x := sources[|sources| - 1];
      ProcessedFromMembers(front, stems);
      assert forall y :: y in sources <==> y in front || y == x;
      if NoDup(sources) {
        assert NoDup(front);
        assert x !in front;
      }
    }
  }

  /** The rebuilt list keeps the sources in their order: the list of a
      concatenation is the concatenation of the lists. */
  lemma {:induction false} ProcessedFromSplit(a: seq<string>, b: seq<string>, stems: set<string>)
    ensures ProcessedFrom(a + b, stems) == ProcessedFrom(a, stems) + ProcessedFrom(b, stems)
  {
    if b == [] {
      assert a + b == a;
    } else {
      var front := b[..|b| - 1];
      assert (a + b)[..|a + b| - 1] == a + front && (a + b)[|a + b| - 1] == b[|b| - 1];
      ProcessedFromSplit(a, front, stems);
    }
  }

  /** The loop of clean.py:143-146. */
  method CollectProcessed(sources: seq<string>, stems: set<string>) returns (processed: seq<string>)
    ensures processed == ProcessedFrom(sources, stems)
  {
    processed := [];
    for i := 0 to |sources|
      invariant processed == ProcessedFrom(sources[..i], stems)
    {
      assert sources[..i + 1][..i] == sources[..i];
      if Stem(sources[i]) in stems {
        processed := processed + [sources[i]];
      }
    }
    assert sources[..|sources|] == sources;
  }

  /** The lines `failed.log` keeps: each non-blank-named line whose name's
      stem is not in the output folder, stripped, in file order. */
  function RealFailures(lines: seq<string>, stems: set<string>): (r: seq<string>)
    ensures |r| <= |lines|
  {
    if lines == [] then []
    else
      var l := lines[|lines| - 1];
      var front := RealFailures(lines[..|lines| - 1], stems);
      var name := NamePart(l);
      if name != [] && Stem(name) !in stems then front + [Strip(l)] else front
  }

  /** `e` is what `failed.log` keeps of line `l`: the stripped line, when its
      name part is not blank and names a stem missing from the output
      folder. */
  predicate KeepsAs(l: string, e: string, stems: set<string>) {
    e == Strip(l) && NamePart(l) != [] && Stem(NamePart(l)) !in stems
  }

  /** `failed.log` keeps a line exactly when it is what some line of the old
      log is kept as. */
  lemma {:induction false} RealFailuresMembers(lines: seq<string>, stems: set<string>)
    ensures forall e :: e in RealFailures(lines, stems) <==> exists l :: l in lines && KeepsAs(l, e, stems)
  {
    if lines != [] {
      var front := lines[..|lines| - 1];
      var last := lines[|lines| - 1];
      RealFailuresMembers(front, stems);
      assert forall y :: y in lines <==> y in front || y == last;
      forall e | e in RealFailures(lines, stems) ensures exists l :: l in lines && KeepsAs(l, e, stems) {
        if e !in RealFailures(front, stems) {
          assert KeepsAs(last, e, stems);
        }
      }
      forall e | exists l :: l in lines && KeepsAs(l, e, stems) ensures e in RealFailures(lines, stems) {
        var l :| l in lines && KeepsAs(l, e, stems);
        if l != last {
          assert l in front;
        }
      }
    }
  }

  /** What the pruned log keeps of one line: its stripped form or nothing. */
  function KeptOf(l: string, stems: set<string>): seq<string> {
    if NamePart(l) != [] && Stem(NamePart(l)) !in stems then [Strip(l)] else []
  }

  lemma RealFailuresSnoc(front: seq<string>, l: string, stems: set<string>)
    ensures RealFailures(front + [l], stems) == RealFailures(front, stems) + KeptOf(l, stems)
  {
    assert (front + [l])[..|front + [l]| - 1] == front;
  }

  /** The pruned log keeps the kept lines in their order: the result of a
      concatenation is the concatenation of the results. */
  lemma {:induction false} RealFailuresSplit(a: seq<string>, b: seq<string>, stems: set<string>)
    ensures RealFailures(a + b, stems) == RealFailures(a, stems) + RealFailures(b, stems)
  {
    if b == [] {
      assert a + b == a;
    } else {
      var front, l := b[..|b| - 1], b[|b| - 1];
      assert b == front + [l] && a + b == (a + front) + [l];
      RealFailuresSnoc(a + front, l, stems);
      RealFailuresSnoc(front, l, stems);
      RealFailuresSplit(a, front, stems);
      SnocConcat(RealFailures(a + front, stems), RealFailures(a, stems), RealFailures(front, stems), KeptOf(l, stems));
    }
  }

  /** The loop of clean.py:158-165. */
  method PurgeFailed(lines: seq<string>, stems: set<string>) returns (kept: seq<string>)
    ensures kept == RealFailures(lines, stems)
  {
    kept := [];
    for i := 0 to |lines|
      invariant kept == RealFailures(lines[..i], stems)
    {
      assert lines[..i + 1][..i] == lines[..i];
      var name := NamePart(lines[i]);
      if name != [] {
        if Stem(name) !in stems {
          kept := kept + [Strip(lines[i])];
        }
      }
    }
    assert lines[..|lines|] == lines;
  }

  /** Purging a purged `failed.log` again against the same output folder
      changes nothing: the kept lines are already stripped and still
      name a missing stem. */
  lemma {:induction false} PurgeIdempotent(lines: seq<string>, stems: set<string>)
    ensures RealFailures(RealFailures(lines, stems), stems) == RealFailures(lines, stems)
  {
    if lines != [] {
      var l := lines[|lines| - 1];
      var front := RealFailures(lines[..|lines| - 1], stems);
      PurgeIdempotent(lines[..|lines| - 1], stems);
      var name := NamePart(l);
      if name != [] && Stem(name) !in stems {
        var kept := front + [Strip(l)];
        assert kept[..|kept| - 1] == front;
        NamePartOfStripped(l);
        StripIdempotent(l);
      }
    }
  }

  /** The duplicate resolver of clean.py:32-98 as one step on the folder: the
      plan of a listing, then all its deletes, then its guarded renames. */
  function Dedup(files: map<string, File>, locked: set<string>, listing: seq<string>): map<string, File>
    requires forall x :: x in listing ==> x in files
  {
    var p := PlanOf(files, listing);
    RenameAll(DeleteAll(files, locked, p.deletes).files, locked, p.renames).files
  }

  /** Re-running the duplicate resolver on its own result is not always a
      no-op. Take two variants `a` and `b` of one name `s` that is not a
      variant itself, both larger than it, with `a` sorting first. Over the
      sorted listing each variant queues the deletion of `s` and a rename
      onto it. After the deletes the first rename wins; the second is
      skipped because the target exists again, and `b` stays behind. Then,
      over any listing of the result, the next pass still queues a
      deletion. */
  lemma SecondDedupNotIdle(a: Variant, b: Variant, fa: File, fb: File, fs: File,
                           f0: map<string, File>, listing: seq<string>, listing1: seq<string>)
    requires Shape(a) && Lazy(a) && Shape(b) && Lazy(b)
    requires Sibling(a) == Sibling(b) && Compose(a) != Compose(b) && LexLe(Compose(a), Compose(b))
    requires !IsLogName(Compose(a)) && !IsLogName(Compose(b)) && Parse(Sibling(a)).None?
    requires fs.size < fa.size && fs.size < fb.size
    requires f0 == map[Compose(a) := fa, Compose(b) := fb, Sibling(a) := fs]
    requires IsListing(listing, f0) && Sorted(listing)
    requires IsListing(listing1, map[Sibling(a) := fa, Compose(b) := fb])
    ensures Dedup(f0, {}, listing) == map[Sibling(a) := fa, Compose(b) := fb]
    ensures PlanOf(Dedup(f0, {}, listing), listing1).deletes != []
  {
    var s, na, nb := Sibling(a), Compose(a), Compose(b);
    assert na != s && nb != s;
    PlanForLarger(a, f0);
    PlanForLarger(b, f0);
    assert PlanFor(f0, s) == Plan([], []);
    DedupOfPair(f0, listing, na, nb, s);
    assert f0[na] == fa && f0[nb] == fb;
    NextPassDeletes(b, map[s := fa, nb := fb], listing1);
  }

  /** Over a sorted listing of a folder of three names where only the
      variants `na` and `nb` of `s` queue anything, the resolver leaves the
      first variant's content under `s` and the second variant in place. */
  lemma DedupOfPair(f0: map<string, File>, listing: seq<string>, na: string, nb: string, s: string)
    requires f0.Keys == {na, nb, s} && na != nb && na != s && nb != s && LexLe(na, nb)
    requires IsListing(listing, f0) && Sorted(listing)
    requires PlanFor(f0, na) == Plan([s], [RenameOp(na, s)]) && PlanFor(f0, nb) == Plan([s], [RenameOp(nb, s)])
    requires PlanFor(f0, s) == Plan([], [])
    ensures Dedup(f0, {}, listing) == map[s := f0[na], nb := f0[nb]]
  {
    SortedPairPlan(f0, listing, na, nb, s);
    TwoRenamesOntoOne(f0, na, nb, s);
  }

  /** Over such a sorted listing the plan deletes `s` twice and renames
      the first variant onto it before the second. */
  lemma SortedPairPlan(f0: map<string, File>, listing: seq<string>, na: string, nb: string, s: string)
    requires f0.Keys == {na, nb, s} && na != nb && na != s && nb != s && LexLe(na, nb)
    requires IsListing(listing, f0) && Sorted(listing)
    requires PlanFor(f0, na) == Plan([s], [RenameOp(na, s)]) && PlanFor(f0, nb) == Plan([s], [RenameOp(nb, s)])
    requires PlanFor(f0, s) == Plan([], [])
    ensures PlanOf(f0, listing) == Plan([s, s], [RenameOp(na, s), RenameOp(nb, s)])
  {
    ListingOfThree(f0, listing, na, nb, s);
    SortedPairOrders(listing, na, nb);
    PlanOfPair(f0, listing, na, nb, s, |listing|);
    assert listing[..|listing|] == listing;
    PairPlanFull(listing, na, nb, s);
  }

  /** With both variants listed, the pair's plan deletes `s` twice and
      renames each variant onto it, the first one first. */
  lemma PairPlanFull(listing: seq<string>, na: string, nb: string, s: string)
    requires na in listing && nb in listing
    ensures PairPlan(listing, na, nb, s) == Plan([s, s], [RenameOp(na, s), RenameOp(nb, s)])
  {
  }

  /** A listing of a folder of three names holds each of them once and
      nothing else. */
  lemma ListingOfThree(f0: map<string, File>, listing: seq<string>, na: string, nb: string, s: string)
    requires f0.Keys == {na, nb, s} && IsListing(listing, f0)
    ensures forall x :: x in listing ==> x in f0
    ensures forall x :: x in listing ==> x == na || x == nb || x == s
    ensures na in f0 && nb in f0 && s in f0
    ensures na in listing && nb in listing && NoDup(listing)
  {
  }

  /** In a sorted listing, every occurrence of `nb` comes after every
      occurrence of the distinct name `na` that sorts before it. */
  lemma SortedPairOrders(listing: seq<string>, na: string, nb: string)
    requires Sorted(listing) && NoDup(listing) && LexLe(na, nb) && na != nb
    ensures forall i, j :: 0 <= i < |listing| && 0 <= j < |listing| && listing[i] == nb && listing[j] == na ==> j < i
  {
    forall i, j | 0 <= i < |listing| && 0 <= j < |listing| && listing[i] == nb && listing[j] == na
      ensures j < i
    {
      SortedPairOrder(listing, j, i);
    }
  }

  /** In a sorted listing, of two distinct names in order, the first comes
      first. */
  lemma SortedPairOrder(listing: seq<string>, j: nat, i: nat)
    requires Sorted(listing) && NoDup(listing) && j < |listing| && i < |listing|
    requires LexLe(listing[j], listing[i]) && listing[j] != listing[i]
    ensures j < i
  {
    if i < j {
      LexLeAntisymmetric(listing[i], listing[j]);
      assert false;
    }
  }

  /** The plan over a listing prefix `pre` in which only the variants `na`
      and `nb` of `s` queue anything, `na` coming first. */
  function PairPlan(pre: seq<string>, na: string, nb: string, s: string): Plan {
    Plan((if na in pre then [s] else []) + (if nb in pre then [s] else []),
         (if na in pre then [RenameOp(na, s)] else []) + (if nb in pre then [RenameOp(nb, s)] else []))
  }

  lemma {:induction false} PlanOfPair(f0: map<string, File>, listing: seq<string>, na: string, nb: string, s: string, k: nat)
    requires forall x :: x in listing ==> x in f0
    requires forall x :: x in listing ==> x == na || x == nb || x == s
    requires na in f0 && nb in f0 && s in f0 && na != nb && na in listing
    requires PlanFor(f0, na) == Plan([s], [RenameOp(na, s)]) && PlanFor(f0, nb) == Plan([s], [RenameOp(nb, s)])
    requires PlanFor(f0, s) == Plan([], []) && NoDup(listing)
    requires forall i, j :: 0 <= i < |listing| && 0 <= j < |listing| && listing[i] == nb && listing[j] == na ==> j < i
    requires k <= |listing|
    ensures PlanOf(f0, listing[..k]) == PairPlan(listing[..k], na, nb, s)
  {
    if k > 0 {
      var front, x := listing[..k - 1], listing[k - 1];
      PrefixSnoc(listing, k);
      PairOrderFacts(listing, na, nb, k);
      PlanOfPair(f0, listing, na, nb, s, k - 1);
      PlanOfSnoc(f0, front, x);
      PairPlanSnoc(front, x, na, nb, s, PlanOf(f0, front), PlanFor(f0, x));
    }
  }

  /** Along a listing in which `na` comes before `nb`, each of them is met
      once, `nb` only after `na`. */
  lemma PairOrderFacts(listing: seq<string>, na: string, nb: string, k: nat)
    requires NoDup(listing) && na in listing && 0 < k <= |listing|
    requires forall i, j :: 0 <= i < |listing| && 0 <= j < |listing| && listing[i] == nb && listing[j] == na ==> j < i
    ensures forall y :: y in listing[..k - 1] ==> y in listing
    ensures listing[k - 1] in listing
    ensures listing[k - 1] == na ==> na !in listing[..k - 1] && nb !in listing[..k - 1]
    ensures listing[k - 1] == nb ==> nb !in listing[..k - 1] && na in listing[..k - 1]
  {
    var front := listing[..k - 1];
    forall i | 0 <= i < k - 1 ensures front[i] != listing[k - 1] {
      assert listing[i] == front[i];
    }
    if listing[k - 1] == na {
      forall i | 0 <= i < k - 1 ensures front[i] != nb {
        assert listing[i] == front[i];
      }
    } else if listing[k - 1] == nb {
      var j :| 0 <= j < |listing| && listing[j] == na;
      assert front[j] == na;
    }
  }

  /** Appending to the concatenation of two parts appends to the second. */
  lemma SnocConcat(whole: seq<string>, left: seq<string>, right: seq<string>, tail: seq<string>)
    requires whole == left + right
    ensures whole + tail == left + (right + tail)
  {
  }

  lemma PrefixSnoc(xs: seq<string>, k: nat)
    requires 0 < k <= |xs|
    ensures xs[..k] == xs[..k - 1] + [xs[k - 1]]
  {
  }

  /** One more listed name extends the pair plan by its own queue entries. */
  lemma PairPlanSnoc(front: seq<string>, x: string, na: string, nb: string, s: string, p: Plan, q: Plan)
    requires p == PairPlan(front, na, nb, s) && na != nb
    requires x == na || x == nb || x == s
    requires x == na ==> q == Plan([s], [RenameOp(na, s)]) && na !in front && nb !in front
    requires x == nb ==> q == Plan([s], [RenameOp(nb, s)]) && nb !in front && na in front
    requires x != na && x != nb ==> q == Plan([], [])
    ensures Plan(p.deletes + q.deletes, p.renames + q.renames) == PairPlan(front + [x], na, nb, s)
  {
    assert forall y :: y in front + [x] <==> y in front || y == x;
  }

  /** Over any listing of a folder holding a variant and its sibling, the
      plan queues a deletion. */
  lemma NextPassDeletes(b: Variant, f1: map<string, File>, listing1: seq<string>)
    requires Shape(b) && Lazy(b) && !IsLogName(Compose(b))
    requires Compose(b) in f1 && Sibling(b) in f1
    requires IsListing(listing1, f1)
    ensures PlanOf(f1, listing1).deletes != []
  {
    var nb := Compose(b);
    ParseExact(b);
    assert |PlanFor(f1, nb).deletes| == 1;
    var d := PlanFor(f1, nb).deletes[0];
    PlanForReasons(f1, nb);
    assert DeleteReason(f1, nb, d);
    PlanOfReasons(f1, listing1);
    assert nb in listing1;
    assert d in PlanOf(f1, listing1).deletes;
  }

  /** After the target's deletion, of two renames onto it only the first
      happens. */
  lemma TwoRenamesOntoOne(f0: map<string, File>, na: string, nb: string, s: string)
    requires na in f0 && nb in f0 && s in f0 && na != nb && na != s && nb != s
    requires f0.Keys == {na, nb, s}
    ensures RenameAll(DeleteAll(f0, {}, [s, s]).files, {}, [RenameOp(na, s), RenameOp(nb, s)]).files
      == map[s := f0[na], nb := f0[nb]]
  {
    assert [s, s][..1] == [s] && [s][..0] == [];
    assert DeleteAll(f0, {}, [s]).files == f0 - {s};
    var d := DeleteAll(f0, {}, [s, s]);
    assert d.files == f0 - {s};
    var one := [RenameOp(na, s)];
    assert one[..0] == [] && one[0] == RenameOp(na, s);
    assert [RenameOp(na, s), RenameOp(nb, s)][..1] == one;
    assert RenameAll(d.files, {}, []) == RenameRun(d.files, [], []);
    var r1 := RenameAll(d.files, {}, one);
    assert na in d.files && s !in d.files;
    assert r1.files == Renamed(d.files, na, s);
    assert r1.files == map[s := f0[na], nb := f0[nb]];
  }

  /** A variant larger than its existing sibling queues the sibling's
      deletion and its own rename onto it. */
  lemma PlanForLarger(v: Variant, files: map<string, File>)
    requires Shape(v) && Lazy(v) && !IsLogName(Compose(v))
    requires Compose(v) in files && Sibling(v) in files
    requires files[Sibling(v)].size < files[Compose(v)].size
    ensures PlanFor(files, Compose(v)) == Plan([Sibling(v)], [RenameOp(Compose(v), Sibling(v))])
  {
    ParseExact(v);
  }

  /** One more listed name adds its own queue entries after the others. */
  lemma PlanOfSnoc(files: map<string, File>, front: seq<string>, x: string)
    requires x in files && forall y :: y in front ==> y in files
    ensures PlanOf(files, front + [x]) ==
      Plan(PlanOf(files, front).deletes + PlanFor(files, x).deletes,
           PlanOf(files, front).renames + PlanFor(files, x).renames)
  {
    assert (front + [x])[..|front|] == front;
  }

  /** The unfinished downloads of a folder that the sweep can remove. */
  function TempsIn(files: map<string, File>, locked: set<string>): set<string> {
    set n | n in files && IsTemp(n) && n !in locked
  }

  /** What one run reports, or why it stopped early. A failed write of a log
      ends the run. */
  datatype CleanReport =
    | NoOutputFolder
    | WriteFailed
    | Cleaned(deleteFailures: seq<string>, renameFailures: seq<RenameOp>, tempsRemoved: nat,
              tempFailures: seq<string>, processed: seq<string>, failures: Option<seq<string>>)

  /** clean.py's whole pass over the `output` folder of `source` (`null` when
      that folder does not exist). The folder ends up as the resolved and
      swept folder plus the rebuilt logs; the source folder is not touched. */
  method CleanAndSync(source: Directory, output: Directory?)
    returns (report: CleanReport, ghost names: seq<string>, ghost deduped: map<string, File>,
             ghost swept: map<string, File>, ghost sources: seq<string>)
    requires output != source
    modifies output
    ensures source.files == old(source.files)
    ensures output == null <==> report == NoOutputFolder
    ensures output != null ==> (
      IsListing(names, old(output.files)) && Sorted(names)
      && deduped == Dedup(old(output.files), output.locked, names)
      && swept == deduped - TempsIn(deduped, output.locked)
      && (forall x :: x in sources <==> x in source.files && HasSourceExt(x)) && NoDup(sources))
    ensures report.WriteFailed? <==>
      output != null && ("processed.log" in output.locked || ("failed.log" in swept && "failed.log" in output.locked))
    ensures report.WriteFailed? ==> (output != null && output.files ==
      if "processed.log" in output.locked then swept
      else swept["processed.log" := TextFile(ProcessedFrom(sources, ValidStems(swept.Keys)))])
    ensures report.Cleaned? ==> (output != null
      && (var p, removed := PlanOf(old(output.files), names), DeleteAll(old(output.files), output.locked, PlanOf(old(output.files), names).deletes);
          report.deleteFailures == removed.failed
          && report.renameFailures == RenameAll(removed.files, output.locked, p.renames).failed)
      && report.tempsRemoved == |TempsIn(deduped, output.locked)|
      && (forall n :: n in report.tempFailures <==> n in deduped && IsTemp(n) && n in output.locked)
      && report.processed == ProcessedFrom(sources, ValidStems(swept.Keys))
      && (forall x :: x in report.processed <==>
            x in source.files && HasSourceExt(x) && Stem(x) in ValidStems(swept.Keys))
      && NoDup(report.processed)
      && (report.failures.Some? <==> "failed.log" in swept)
      && (report.failures.Some? ==>
            report.failures.value == RealFailures(swept["failed.log"].lines, ValidStems(swept.Keys)))
      && output.files == (var w := swept["processed.log" := TextFile(report.processed)];
                          if report.failures.Some? then w["failed.log" := TextFile(report.failures.value)] else w))
  {
    names, deduped, swept, sources := [], map[], map[], [];
    if output == null {
      return NoOutputFolder, names, deduped, swept, sources;
    }
    // Step 1: resolve numbered duplicates.
    var sorted := output.SortedListing();
    names := sorted;
    var toDelete, toRename := MakePlan(output, sorted);
    var deleteFailures := ExecuteDeletes(output, toDelete);
    var renameFailures, done := ExecuteRenames(output, toRename);
    deduped := output.files;
    // Step 2: remove unfinished downloads.
    var current := output.Listing();
    var tempsRemoved, tempFailures := SweepTemps(output, current);
    SweepResult(deduped, output.locked, current);
    SweepFailures(deduped, output.locked, current);
    assert RemovableTemps(current, output.locked) == TempsIn(deduped, output.locked);
    swept := output.files;
    // Step 3: rebuild the logs.
    current := output.Listing();
    var stems := ValidStems(set f | f in current);
    assert (set f | f in current) == swept.Keys;
    var sourceNames := source.Listing();
    var sourceFiles := SourceFiles(sourceNames);
    sources := sourceFiles;
    var processed := CollectProcessed(sourceFiles, stems);
    ProcessedFromMembers(sourceFiles, stems);
    var ok := output.WriteLines("processed.log", processed);
    if !ok {
      return WriteFailed, names, deduped, swept, sources;
    }
    var failures := None;
    if "failed.log" in output.files {
      var kept := PurgeFailed(output.files["failed.log"].lines, stems);
      ok := output.WriteLines("failed.log", kept);
      if !ok {
        return WriteFailed, names, deduped, swept, sources;
      }
      failures := Some(kept);
    }
    report := Cleaned(deleteFailures, renameFailures, tempsRemoved, tempFailures, processed, failures);
  }
}
