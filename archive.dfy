/** archive.py: moves every converted file of the `output` folder, with the
    encrypted source it was made from, to an archive (`Originals` and
    `Converted`), optionally moves the converted files that have no source,
    and records what it moved in two copies of `completed.log`. */
module Archive {
  import opened Names
  import opened FileSystem
  import opened Matching

  // ---------------------------------------------------------------------
  // The history logs

  /** `load_log`'s result for the given lines: each line, stripped. */
  function LogSet(lines: seq<string>): set<string> {
    set l | l in lines :: Strip(l)
  }

  lemma LogSetSnoc(lines: seq<string>, l: string)
    ensures LogSet(lines + [l]) == LogSet(lines) + {Strip(l)}
  {
    assert forall y :: y in lines + [l] <==> y in lines || y == l;
  }

  /** `load_log` (archive.py:5-13): the stripped lines of the log, or the
      empty set when there is no log. */
  method LoadLog(dir: Directory, name: string) returns (s: set<string>)
    ensures s == LogSet(LinesOf(dir.files, name))
  {
    s := {};
    var lines := LinesOf(dir.files, name);
    for i := 0 to |lines|
      invariant s == LogSet(lines[..i])
    {
      assert lines[..i + 1] == lines[..i] + [lines[i]];
      LogSetSnoc(lines[..i], lines[i]);
      s := s + {Strip(lines[i])};
    }
    assert lines[..|lines|] == lines;
  }

  /** The folder after `append_log(name, items)`: the items follow the old
      lines, one per line; nothing happens when the log cannot be opened or
      there is nothing to add. */
  function Appended(files: map<string, File>, locked: set<string>, name: string, items: seq<string>): map<string, File> {
    if name in locked || items == [] then files
    else files[name := TextFile(LinesOf(files, name) + items)]
  }

  /** Appending keeps the old lines as a prefix, adds exactly the items, and
      leaves every other file alone. */
  lemma AppendedLines(files: map<string, File>, locked: set<string>, name: string, items: seq<string>)
    ensures LinesOf(Appended(files, locked, name, items), name) ==
      LinesOf(files, name) + (if name in locked then [] else items)
    ensures forall n :: n != name ==> (n in Appended(files, locked, name, items) <==> n in files)
    ensures forall n :: n != name && n in files ==> Appended(files, locked, name, items)[n] == files[n]
  {
    if name in locked || items == [] {
      assert LinesOf(files, name) + [] == LinesOf(files, name);
    }
  }

  /** Loading a log after appending to it gives the old entries plus the
      appended items, stripped. */
  lemma LoadAfterAppend(files: map<string, File>, locked: set<string>, name: string, items: seq<string>)
    requires name !in locked
    ensures LogSet(LinesOf(Appended(files, locked, name, items), name)) == LogSet(LinesOf(files, name)) + LogSet(items)
  {
    AppendedLines(files, locked, name, items);
    var old_ := LinesOf(files, name);
    assert forall y :: y in old_ + items <==> y in old_ || y in items;
  }

  /** `append_log` (archive.py:15-21). */
  method AppendLog(dir: Directory, name: string, items: seq<string>)
    modifies dir
    ensures dir.files == Appended(old(dir.files), dir.locked, name, items)
  {
    if name in dir.locked {
      return;
    }
    for i := 0 to |items|
      invariant dir.files == Appended(old(dir.files), dir.locked, name, items[..i])
    {
      assert items[..i + 1] == items[..i] + [items[i]];
      assert LinesOf(old(dir.files), name) + items[..i + 1] == LinesOf(old(dir.files), name) + items[..i] + [items[i]];
      var ok := dir.AppendLine(name, items[i]);
    }
    assert items[..|items|] == items;
  }

  // ---------------------------------------------------------------------
  // Moving files

  /** The four folders of an archive run, as values. */
  datatype Disk = Disk(source: map<string, File>, output: map<string, File>,
                       originals: map<string, File>, converted: map<string, File>)

  /** The names each of those folders will not give up or take. */
  datatype Locks = Locks(source: set<string>, output: set<string>,
                         originals: set<string>, converted: set<string>)

  function DiskOf(source: Directory, output: Directory, originals: Directory, converted: Directory): Disk
    reads source, output, originals, converted
  {
    Disk(source.files, output.files, originals.files, converted.files)
  }

  function LocksOf(source: Directory, output: Directory, originals: Directory, converted: Directory): Locks {
    Locks(source.locked, output.locked, originals.locked, converted.locked)
  }

  /** The output and converted folders after trying to move one converted
      file, and whether it moved. */
  datatype Transfer = Transfer(output: map<string, File>, converted: map<string, File>, ok: bool)

  /** Moving `name` from the output folder into the converted archive
      (archive.py:114-116 and 151-153): a file of that name already there is
      removed first, so the move overwrites. A removal or a move that fails
      raises, and what was done before it stays done. */
  function MoveConverted(output: map<string, File>, outLocked: set<string>,
                         converted: map<string, File>, convLocked: set<string>, name: string): Transfer
  {
    if name in converted && name in convLocked then Transfer(output, converted, false)
    else
      var cleared := converted - {name};
      if CanMove(output, outLocked, name, convLocked, name) then
        Transfer(output - {name}, cleared[name := output[name]], true)
      else Transfer(output, cleared, false)
  }

  /** A converted file moves exactly when its source is present and unlocked
      and its place in the archive is unlocked; then it arrives unchanged,
      replacing what was there. */
  lemma MoveConvertedResult(output: map<string, File>, outLocked: set<string>,
                            converted: map<string, File>, convLocked: set<string>, name: string)
    ensures var t := MoveConverted(output, outLocked, converted, convLocked, name);
      (t.ok <==> name in output && name !in outLocked && name !in convLocked)
      && (t.ok ==> t.output == output - {name} && t.converted == converted[name := output[name]])
      && (!t.ok ==> t.output == output && t.converted == if name in convLocked then converted else converted - {name})
  {
    if name !in convLocked && name in output && name !in outLocked {
      assert (converted - {name})[name := output[name]] == converted[name := output[name]];
    } else if name in convLocked && name !in converted {
      assert converted - {name} == converted;
    }
  }

  method MoveConvertedFile(output: Directory, converted: Directory, name: string) returns (ok: bool)
    requires output != converted
    modifies output, converted
    ensures Transfer(output.files, converted.files, ok) ==
      MoveConverted(old(output.files), output.locked, old(converted.files), converted.locked, name)
  {
    ok := true;
    if name in converted.files {
      ok := converted.Remove(name);
    }
    if ok {
      ok := Move(output, name, converted, name);
    }
  }

  /** The folders, the items logged so far and the orphan count, along the
      matching loop. */
  datatype PairRun = PairRun(disk: Disk, completed: seq<string>, orphans: nat)

  /** One converted file of the matching loop (archive.py:92-125). An orphan
      is counted. A matched file whose source has gone is skipped. Otherwise
      the source moves to `Originals`, then the converted file moves to
      `Converted`, and the source is logged only when both moved. */
  function PairStep(r: PairRun, k: Locks, encMap: map<string, string>, out: string): PairRun {
    var key := Key(out);
    if key !in encMap then r.(orphans := r.orphans + 1)
    else
      var enc := encMap[key];
      var d := r.disk;
      if enc !in d.source || !CanMove(d.source, k.source, enc, k.originals, enc) then r
      else
        var d1 := d.(source := d.source - {enc}, originals := d.originals[enc := d.source[enc]]);
        var t := MoveConverted(d1.output, k.output, d1.converted, k.converted, out);
        var d2 := d1.(output := t.output, converted := t.converted);
        if t.ok then PairRun(d2, r.completed + [enc], r.orphans) else r.(disk := d2)
  }

  /** The matching loop over the converted files, in listing order. */
  function MatchAll(d: Disk, k: Locks, encMap: map<string, string>, outs: seq<string>): PairRun {
    if outs == [] then PairRun(d, [], 0)
    else PairStep(MatchAll(d, k, encMap, outs[..|outs| - 1]), k, encMap, outs[|outs| - 1])
  }

  /** A pair is logged exactly when its source is there and both moves
      succeed; then the source is in `Originals`, the converted file in
      `Converted`, both unchanged. A missing or immovable source changes
      nothing. When the source moved but the converted file did not, the
      source stays moved, the converted file stays in the output folder, an
      unlocked archived copy of it is gone, and nothing is logged. */
  lemma PairStepLogsAfterBothMoves(r: PairRun, k: Locks, encMap: map<string, string>, out: string)
    requires Key(out) in encMap
    ensures var r', enc, d := PairStep(r, k, encMap, out), encMap[Key(out)], r.disk;
      var both := enc in d.source && enc !in k.source && enc !in k.originals
                  && out in d.output && out !in k.output && out !in k.converted;
      (r'.completed == r.completed + [enc] <==> both)
      && (!both ==> r'.completed == r.completed)
      && (both ==> r'.disk == Disk(d.source - {enc}, d.output - {out},
                                   d.originals[enc := d.source[enc]], d.converted[out := d.output[out]]))
      && (!(enc in d.source && enc !in k.source && enc !in k.originals) ==> r' == r)
      && (enc in d.source && enc !in k.source && enc !in k.originals && !both ==>
            r'.disk.source == d.source - {enc} && r'.disk.originals == d.originals[enc := d.source[enc]]
            && r'.disk.output == d.output
            && r'.disk.converted == if out in k.converted then d.converted else d.converted - {out})
  {
    var enc, d := encMap[Key(out)], r.disk;
    if enc in d.source && enc !in k.source && enc !in k.originals {
      var d1 := d.(source := d.source - {enc}, originals := d.originals[enc := d.source[enc]]);
      MoveConvertedResult(d1.output, k.output, d1.converted, k.converted, out);
    }
  }

  /** The orphan count is the number of converted files without a source. */
  lemma {:induction false} MatchAllOrphans(d: Disk, k: Locks, encMap: map<string, string>, outs: seq<string>)
    ensures MatchAll(d, k, encMap, outs).orphans == |OrphanFiles(outs, encMap)|
  {
    if outs != [] {
      MatchAllOrphans(d, k, encMap, outs[..|outs| - 1]);
    }
  }

  /** What the matching loop logs: sources that were present at the start,
      each once, now moved to `Originals` unchanged; a source never comes
      back. */
  lemma {:induction false} MatchAllCompleted(d: Disk, k: Locks, encMap: map<string, string>, outs: seq<string>)
    ensures var r := MatchAll(d, k, encMap, outs);
      (forall n :: n in r.disk.source ==> n in d.source && r.disk.source[n] == d.source[n])
      && (forall e :: e in r.completed ==>
            e in encMap.Values && e in d.source && e !in r.disk.source
            && e in r.disk.originals && r.disk.originals[e] == d.source[e])
      && NoDup(r.completed)
  {
    if outs != [] {
      var front, out := outs[..|outs| - 1], outs[|outs| - 1];
      MatchAllCompleted(d, k, encMap, front);
      var r0 := MatchAll(d, k, encMap, front);
      if Key(out) in encMap {
        PairStepLogsAfterBothMoves(r0, k, encMap, out);
      }
    }
  }

  /** The matching loop takes from the output folder only the converted
      files it is given. */
  lemma {:induction false} MatchAllFrame(d: Disk, k: Locks, encMap: map<string, string>, outs: seq<string>)
    ensures var r := MatchAll(d, k, encMap, outs);
      (forall n :: n !in outs ==> (n in r.disk.output <==> n in d.output))
      && (forall n :: n !in outs && n in d.output ==> r.disk.output[n] == d.output[n])
  {
    if outs != [] {
      var front, out := outs[..|outs| - 1], outs[|outs| - 1];
      MatchAllFrame(d, k, encMap, front);
      assert forall n :: n in outs <==> n in front || n == out;
      var r0 := MatchAll(d, k, encMap, front);
      if Key(out) in encMap {
        PairStepLogsAfterBothMoves(r0, k, encMap, out);
      }
    }
  }

  /** The matching loop of archive.py:85-125 on the four folders. */
  method MatchAndMove(source: Directory, output: Directory, originals: Directory, converted: Directory,
                      encMap: map<string, string>, outs: seq<string>)
    returns (moved: nat, orphans: nat, completed: seq<string>)
    requires source != output && source != originals && source != converted
    requires output != originals && output != converted && originals != converted
    modifies source, output, originals, converted
    ensures moved == |completed|
    ensures PairRun(DiskOf(source, output, originals, converted), completed, orphans) ==
      MatchAll(old(DiskOf(source, output, originals, converted)), LocksOf(source, output, originals, converted), encMap, outs)
    ensures orphans == |OrphanFiles(outs, encMap)|
    ensures forall n :: n !in outs ==> (n in output.files <==> n in old(output.files))
    ensures forall n :: n !in outs && n in old(output.files) ==> output.files[n] == old(output.files)[n]
  {
    moved, orphans, completed := 0, 0, [];
    ghost var d0 := DiskOf(source, output, originals, converted);
    var k := LocksOf(source, output, originals, converted);
    for i := 0 to |outs|
      invariant moved == |completed|
      invariant PairRun(DiskOf(source, output, originals, converted), completed, orphans) == MatchAll(d0, k, encMap, outs[..i])
    {
      assert outs[..i + 1][..i] == outs[..i];
      var out := outs[i];
      var key := Key(out);
      if key in encMap {
        var enc := encMap[key];
        if enc in source.files {
          var ok := Move(source, enc, originals, enc);
          if ok {
            ok := MoveConvertedFile(output, converted, out);
            if ok {
              completed := completed + [enc];
              moved := moved + 1;
            }
          }
        }
      } else {
        orphans := orphans + 1;
      }
    }
    assert outs[..|outs|] == outs;
    MatchAllOrphans(d0, k, encMap, outs);
    MatchAllFrame(d0, k, encMap, outs);
  }

  /** The output and converted folders and the orphans moved so far. */
  datatype OrphanRun = OrphanRun(output: map<string, File>, converted: map<string, File>, moved: seq<string>)

  /** The orphan loop of archive.py:147-159: each orphan that moves is logged
      under its own name. */
  function MoveOrphans(output: map<string, File>, outLocked: set<string>,
                       converted: map<string, File>, convLocked: set<string>, files: seq<string>): OrphanRun
  {
    if files == [] then OrphanRun(output, converted, [])
    else
      var r := MoveOrphans(output, outLocked, converted, convLocked, files[..|files| - 1]);
      var f := files[|files| - 1];
      var t := MoveConverted(r.output, outLocked, r.converted, convLocked, f);
      OrphanRun(t.output, t.converted, if t.ok then r.moved + [f] else r.moved)
  }

  /** Every orphan logged is one of the files asked for, was in the output
      folder, and is now in `Converted` unchanged, each once; files not asked
      for stay in the output folder as they were. */
  lemma {:induction false} MoveOrphansResult(output: map<string, File>, outLocked: set<string>,
                                             converted: map<string, File>, convLocked: set<string>, files: seq<string>)
    requires NoDup(files)
    ensures var r := MoveOrphans(output, outLocked, converted, convLocked, files);
      (forall f :: f in r.moved ==>
         f in files && f in output && f !in r.output && f in r.converted && r.converted[f] == output[f])
      && NoDup(r.moved)
      && (forall n :: n !in files ==> (n in r.output <==> n in output))
      && (forall n :: n !in files && n in output ==> r.output[n] == output[n])
  {
    if files != [] {
      var front, f := files[..|files| - 1], files[|files| - 1];
      MoveOrphansResult(output, outLocked, converted, convLocked, front);
      assert forall n :: n in files <==> n in front || n == f;
      assert f !in front;
      var r := MoveOrphans(output, outLocked, converted, convLocked, front);
      MoveConvertedResult(r.output, outLocked, r.converted, convLocked, f);
    }
  }

  method MoveOrphanFiles(output: Directory, converted: Directory, files: seq<string>) returns (moved: seq<string>)
    requires output != converted
    modifies output, converted
    ensures OrphanRun(output.files, converted.files, moved) ==
      MoveOrphans(old(output.files), output.locked, old(converted.files), converted.locked, files)
  {
    moved := [];
    ghost var out0, conv0 := output.files, converted.files;
    for i := 0 to |files|
      invariant OrphanRun(output.files, converted.files, moved) ==
        MoveOrphans(out0, output.locked, conv0, converted.locked, files[..i])
    {
      assert files[..i + 1][..i] == files[..i];
      var ok := MoveConvertedFile(output, converted, files[i]);
      if ok {
        moved := moved + [files[i]];
      }
    }
    assert files[..|files|] == files;
  }

  // ---------------------------------------------------------------------
  // The whole run

  /** The operator's answer to the orphan question means yes: it is `y`
      once stripped and lower-cased. */
  predicate Yes(answer: string) {
    Lower(Strip(answer)) == "y"
  }

  datatype ArchiveReport =
    | NoOutputFolder
    | Archived(moved: nat, orphans: nat, completed: seq<string>)

  /** The orphan phase of archive.py:128-159: when there are orphans and the
      answer is yes, every orphan is tried in listing order; the folders
      change only by those moves. */
  method HandleOrphans(output: Directory, converted: Directory, outs: seq<string>,
                       encMap: map<string, string>, orphans: nat, answer: string)
    returns (done: seq<string>)
    requires output != converted && NoDup(outs)
    modifies output, converted
    ensures done == [] || (orphans > 0 && Yes(answer))
    ensures forall e :: e in done ==> e in OrphanFiles(outs, encMap)
    ensures NoDup(done)
    ensures forall n :: n !in outs ==> (n in output.files <==> n in old(output.files))
    ensures forall n :: n !in outs && n in old(output.files) ==> output.files[n] == old(output.files)[n]
    ensures orphans > 0 && Yes(answer) ==>
      OrphanRun(output.files, converted.files, done) ==
        MoveOrphans(old(output.files), output.locked, old(converted.files), converted.locked, OrphanFiles(outs, encMap))
    ensures !(orphans > 0 && Yes(answer)) ==> output.files == old(output.files) && converted.files == old(converted.files)
  {
    done := [];
    if orphans > 0 {
      var orphanFiles := OrphanFiles(outs, encMap);
      OrphanMembers(outs, encMap);
      if Yes(answer) {
        MoveOrphansResult(output.files, output.locked, converted.files, converted.locked, orphanFiles);
        done := MoveOrphanFiles(output, converted, orphanFiles);
      }
    }
  }

  /** When the destination typed is the output folder itself, its one
      `completed.log` gets the items twice. */
  lemma SharedLogTwice(files: map<string, File>, locked: set<string>, items: seq<string>)
    ensures LinesOf(Appended(Appended(files, locked, "completed.log", items), locked, "completed.log", items), "completed.log")
      == LinesOf(files, "completed.log") + (if "completed.log" in locked then [] else items + items)
  {
    AppendedLines(files, locked, "completed.log", items);
    AppendedLines(Appended(files, locked, "completed.log", items), locked, "completed.log", items);
    if "completed.log" in locked {
      assert LinesOf(files, "completed.log") + [] == LinesOf(files, "completed.log");
    }
  }

  /** The log phase of archive.py:162-171: when anything was moved, both
      copies of `completed.log` get the same items. */
  method WriteHistory(output: Directory, dest: Directory, completed: seq<string>)
    modifies output, dest
    ensures output != dest ==>
      output.files == Appended(old(output.files), output.locked, "completed.log", completed)
      && dest.files == Appended(old(dest.files), dest.locked, "completed.log", completed)
    ensures output == dest ==>
      output.files == Appended(Appended(old(output.files), output.locked, "completed.log", completed),
                               output.locked, "completed.log", completed)
  {
    if completed != [] {
      AppendLog(output, "completed.log", completed);
      AppendLog(dest, "completed.log", completed);
    }
  }

  /** The folders, the archive root's files, the items logged and the
      orphan count at the end of a run. */
  datatype ArchiveState = ArchiveState(disk: Disk, dest: map<string, File>, completed: seq<string>, orphans: nat)

  /** The whole run on values, from the four folders `d`, the archive root's
      files `dest`, the source map, the converted files in listing order and
      the operator's answer: the matching pass, then the orphan pass when
      there are orphans and the answer is yes, then both logs. */
  function ArchiveOf(d: Disk, k: Locks, dest: map<string, File>, destLocked: set<string>,
                     encMap: map<string, string>, outs: seq<string>, answer: string): ArchiveState
  {
    var r := MatchAll(d, k, encMap, outs);
    var o := if r.orphans > 0 && Yes(answer)
      then MoveOrphans(r.disk.output, k.output, r.disk.converted, k.converted, OrphanFiles(outs, encMap))
      else OrphanRun(r.disk.output, r.disk.converted, []);
    var completed := r.completed + o.moved;
    ArchiveState(Disk(r.disk.source, Appended(o.output, k.output, "completed.log", completed), r.disk.originals, o.converted),
                 Appended(dest, destLocked, "completed.log", completed), completed, r.orphans)
  }

  /** What a run reports: the matched pairs come first, in the order of the
      matching pass; orphans follow only after a yes, each an orphan file
      and each once; the orphan count is the number of orphan files. */
  lemma ArchiveOfReport(d: Disk, k: Locks, dest: map<string, File>, destLocked: set<string>,
                        encMap: map<string, string>, outs: seq<string>, answer: string)
    requires NoDup(outs)
    ensures var a, paired := ArchiveOf(d, k, dest, destLocked, encMap, outs, answer), MatchAll(d, k, encMap, outs).completed;
      |paired| <= |a.completed| && a.completed[..|paired|] == paired
      && (|a.completed| > |paired| ==> a.orphans > 0 && Yes(answer))
      && (forall e :: e in a.completed[|paired|..] ==> e in OrphanFiles(outs, encMap))
      && NoDup(a.completed[|paired|..])
      && a.orphans == |OrphanFiles(outs, encMap)|
  {
    var r := MatchAll(d, k, encMap, outs);
    MatchAllOrphans(d, k, encMap, outs);
    var files := OrphanFiles(outs, encMap);
    OrphanMembers(outs, encMap);
    var a := ArchiveOf(d, k, dest, destLocked, encMap, outs, answer);
    if r.orphans > 0 && Yes(answer) {
      MoveOrphansResult(r.disk.output, k.output, r.disk.converted, k.converted, files);
      var o := MoveOrphans(r.disk.output, k.output, r.disk.converted, k.converted, files);
      assert a.completed == r.completed + o.moved;
      assert a.completed[|r.completed|..] == o.moved;
    } else {
      assert a.completed == r.completed + [];
    }
  }

  /** Where the logged items end up: a logged pair's source has left the
      source folder and sits unchanged in `Originals`; a logged orphan has
      left the output folder for `Converted`. */
  lemma ArchiveOfArchived(d: Disk, k: Locks, dest: map<string, File>, destLocked: set<string>,
                          encMap: map<string, string>, outs: seq<string>, answer: string)
    requires NoDup(outs) && "completed.log" !in outs
    ensures var a, paired := ArchiveOf(d, k, dest, destLocked, encMap, outs, answer), MatchAll(d, k, encMap, outs).completed;
      (forall n :: n in a.disk.source ==> n in d.source && a.disk.source[n] == d.source[n])
      && (forall e :: e in paired ==>
            e in d.source && e !in a.disk.source && e in a.disk.originals && a.disk.originals[e] == d.source[e])
      && (forall e :: e in a.completed[|paired|..] ==> e !in a.disk.output && e in a.disk.converted)
  {
    var r := MatchAll(d, k, encMap, outs);
    MatchAllCompleted(d, k, encMap, outs);
    ArchiveOfReport(d, k, dest, destLocked, encMap, outs, answer);
    var files := OrphanFiles(outs, encMap);
    OrphanMembers(outs, encMap);
    var a := ArchiveOf(d, k, dest, destLocked, encMap, outs, answer);
    if r.orphans > 0 && Yes(answer) {
      MoveOrphansResult(r.disk.output, k.output, r.disk.converted, k.converted, files);
      var o := MoveOrphans(r.disk.output, k.output, r.disk.converted, k.converted, files);
      assert a.completed[|r.completed|..] == o.moved;
      forall e | e in o.moved ensures e !in a.disk.output && e in a.disk.converted {
        assert e in outs;
        AppendedLines(o.output, k.output, "completed.log", a.completed);
      }
    } else {
      assert a.completed[|r.completed|..] == [];
    }
  }

  /** The output folder's `completed.log` keeps its old lines and gains the
      logged items unless it is locked; the archive root's copy is the same
      append. */
  lemma ArchiveOfLogs(d: Disk, k: Locks, dest: map<string, File>, destLocked: set<string>,
                      encMap: map<string, string>, outs: seq<string>, answer: string)
    requires NoDup(outs) && "completed.log" !in outs
    ensures var a := ArchiveOf(d, k, dest, destLocked, encMap, outs, answer);
      LinesOf(a.disk.output, "completed.log") ==
        LinesOf(d.output, "completed.log") + (if "completed.log" in k.output then [] else a.completed)
      && LinesOf(a.dest, "completed.log") ==
        LinesOf(dest, "completed.log") + (if "completed.log" in destLocked then [] else a.completed)
  {
    var r := MatchAll(d, k, encMap, outs);
    MatchAllFrame(d, k, encMap, outs);
    var files := OrphanFiles(outs, encMap);
    OrphanMembers(outs, encMap);
    var a := ArchiveOf(d, k, dest, destLocked, encMap, outs, answer);
    var o := if r.orphans > 0 && Yes(answer)
      then MoveOrphans(r.disk.output, k.output, r.disk.converted, k.converted, files)
      else OrphanRun(r.disk.output, r.disk.converted, []);
    if r.orphans > 0 && Yes(answer) {
      MoveOrphansResult(r.disk.output, k.output, r.disk.converted, k.converted, files);
    }
    assert LinesOf(o.output, "completed.log") == LinesOf(d.output, "completed.log");
    AppendedLines(o.output, k.output, "completed.log", a.completed);
    AppendedLines(dest, destLocked, "completed.log", a.completed);
  }

  /** archive.py's `main` after its prompts: `source` holds the encrypted
      files, `output` is its `output` folder (`null` when missing), `dest`
      the archive root with its `Originals` and `Converted` folders, and
      `answer` the reply to the orphan question. The folders and the report
      end as the specified run over the two listings. */
  method ArchiveRun(source: Directory, output: Directory?, dest: Directory,
                    originals: Directory, converted: Directory, answer: string)
    returns (report: ArchiveReport, ghost outs: seq<string>, ghost encrypted: seq<string>)
    requires source != output && source != dest && source != originals && source != converted
    requires output != dest && output != originals && output != converted
    requires dest != originals && dest != converted && originals != converted
    modifies source, output, dest, originals, converted
    ensures output == null <==> report == NoOutputFolder
    ensures output == null ==>
      source.files == old(source.files) && dest.files == old(dest.files)
      && originals.files == old(originals.files) && converted.files == old(converted.files)
    ensures output != null ==>
      (forall x :: x in outs <==> x in old(output.files) && !EndsWith(x, ".log")) && NoDup(outs)
      && (forall x :: x in encrypted <==> x in old(source.files) && HasSourceExt(x)) && NoDup(encrypted)
    ensures output != null ==> (report.Archived? && report.moved == |report.completed|
      && ArchiveState(DiskOf(source, output, originals, converted), dest.files, report.completed, report.orphans) ==
         ArchiveOf(old(DiskOf(source, output, originals, converted)), LocksOf(source, output, originals, converted),
                   old(dest.files), dest.locked, EncMap(encrypted), outs, answer))
  {
    outs, encrypted := [], [];
    if output == null {
      return NoOutputFolder, outs, encrypted;
    }
    ghost var d0 := DiskOf(source, output, originals, converted);
    var outNames := output.Listing();
    var outFiles := ConvertedFiles(outNames);
    var sourceNames := source.Listing();
    var encFiles := SourceFiles(sourceNames);
    outs, encrypted := outFiles, encFiles;
    assert (forall x :: x in outs <==> x in old(output.files) && !EndsWith(x, ".log")) && NoDup(outs);
    assert (forall x :: x in encrypted <==> x in old(source.files) && HasSourceExt(x)) && NoDup(encrypted);
    var encMap := EncMap(encFiles);

    var moved, orphans, completed := MatchAndMove(source, output, originals, converted, encMap, outFiles);
    var done := HandleOrphans(output, converted, outFiles, encMap, orphans, answer);
    completed := completed + done;
    moved := moved + |done|;
    WriteHistory(output, dest, completed);
    report := Archived(moved, orphans, completed);
  }
}
