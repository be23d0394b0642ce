/** legacy/browser_unlock.py without its browser: which encrypted files of a
    folder still need converting, how they are cut into batches, whether a
    finished batch is recorded in `processed.log`, and the in-place
    duplicate fix run after every batch. */
module Resume {
  import opened Names
  import opened FileSystem
  import opened Variant
  import opened Archive

  // ---------------------------------------------------------------------
  // Paths

  /** `str.split(c)`: the pieces between the occurrences of `c`; there is
      always at least one. */
  function SplitOn(s: string, c: char): (r: seq<string>)
    ensures |r| >= 1
  {
    if s == [] then [[]]
    else
      var rest := SplitOn(s[1..], c);
      if s[0] == c then [[]] + rest else [[s[0]] + rest[0]] + rest[1..]
  }

  lemma {:induction false} SplitOnPlain(w: string, c: char, t: string)
    requires c !in w
    ensures SplitOn(w + t, c) == [w + SplitOn(t, c)[0]] + SplitOn(t, c)[1..]
  {
    if w != [] {
      assert c !in w[1..] by { assert forall x :: x in w[1..] ==> x in w; }
      SplitOnPlain(w[1..], c, t);
      assert w[0] in w;
      assert w + t == [w[0]] + (w[1..] + t);
      SplitOnCons(w[0], w[1..] + t, c);
      ConsPiece(w, t, SplitOn(w[1..] + t, c), SplitOn(t, c));
    } else {
      assert w + t == t;
      assert [] + SplitOn(t, c)[0] == SplitOn(t, c)[0];
      assert SplitOn(t, c) == [SplitOn(t, c)[0]] + SplitOn(t, c)[1..];
    }
  }

  /** One character other than the separator joins the first piece. */
  lemma SplitOnCons(x: char, s: string, c: char)
    requires x != c
    ensures SplitOn([x] + s, c) == [[x] + SplitOn(s, c)[0]] + SplitOn(s, c)[1..]
  {
    assert ([x] + s)[1..] == s;
  }

  lemma ConsPiece(w: string, t: string, rest: seq<string>, tail: seq<string>)
    requires w != [] && |tail| >= 1
    requires rest == [w[1..] + tail[0]] + tail[1..]
    ensures [[w[0]] + rest[0]] + rest[1..] == [w + tail[0]] + tail[1..]
  {
    assert [w[0]] + (w[1..] + tail[0]) == w + tail[0];
    assert rest[1..] == tail[1..];
  }

  /** `safe_join_paths`: the paths joined with line breaks, the form the
      browser's file field takes several files in. */
  function SafeJoinPaths(paths: seq<string>): string {
    JoinWith(paths, '\n')
  }

  /** Splitting the joined text at line breaks gives the paths back, as long
      as there is at least one path and none holds a line break. */
  lemma {:induction false} SafeJoinPathsSplits(paths: seq<string>)
    requires paths != [] && forall p :: p in paths ==> '\n' !in p
    ensures SplitOn(SafeJoinPaths(paths), '\n') == paths
  {
    var p := paths[0];
    assert p in paths;
    if |paths| == 1 {
      SplitOnPlain(p, '\n', []);
      assert p + [] == p;
    } else {
      assert forall q :: q in paths[1..] ==> q in paths;
      SafeJoinPathsSplits(paths[1..]);
      var t := ['\n'] + SafeJoinPaths(paths[1..]);
      assert SafeJoinPaths(paths) == p + t;
      SplitOnPlain(p, '\n', t);
      assert t[0] == '\n' && t[1..] == SafeJoinPaths(paths[1..]);
      assert SplitOn(t, '\n') == [[]] + paths[1..];
      assert p + [] == p;
      assert paths == [p] + paths[1..];
    }
  }

  /** `os.path.join(folder, name)` for a plain file name: a backslash is put
      between them unless the folder is empty or already ends in a
      separator. */
  function JoinPath(folder: string, name: string): string {
    if folder == [] || IsSep(folder[|folder| - 1]) then folder + name else folder + ['\\'] + name
  }

  /** `os.path.basename` undoes the join for a name without separators. */
  lemma BaseNameOfJoin(folder: string, name: string)
    requires forall k :: 0 <= k < |name| ==> !IsSep(name[k])
    ensures BaseName(JoinPath(folder, name)) == name
  {
    var p := JoinPath(folder, name);
    var j := |p| - |name| - 1;
    assert forall k :: j < k < |p| ==> p[k] == name[k - j - 1];
    assert j >= 0 ==> IsSep(p[j]);
  }

  function Paths(folder: string, names: seq<string>): (ps: seq<string>)
    ensures |ps| == |names|
    ensures forall i {:trigger ps[i]} :: 0 <= i < |names| ==> ps[i] == JoinPath(folder, names[i])
  {
    seq(|names|, i requires 0 <= i < |names| => JoinPath(folder, names[i]))
  }

  function BaseNames(paths: seq<string>): (ns: seq<string>)
    ensures |ns| == |paths|
    ensures forall i {:trigger ns[i]} :: 0 <= i < |paths| ==> ns[i] == BaseName(paths[i])
  {
    seq(|paths|, i requires 0 <= i < |paths| => BaseName(paths[i]))
  }

  /** The names written to `processed.log` for a batch of joined paths are
      the file names that were queued. */
  lemma BaseNamesOfPaths(folder: string, names: seq<string>)
    requires forall n, k :: n in names && 0 <= k < |n| ==> !IsSep(n[k])
    ensures BaseNames(Paths(folder, names)) == names
  {
    forall i | 0 <= i < |names| ensures BaseNames(Paths(folder, names))[i] == names[i] {
      assert names[i] in names;
      BaseNameOfJoin(folder, names[i]);
    }
  }

  // ---------------------------------------------------------------------
  // The resume filter

  /** The stems of the `completed.log` lines that are not blank. */
  function ArchivedStems(lines: seq<string>): set<string> {
    if lines == [] then {}
    else
      var name := Strip(lines[|lines| - 1]);
      ArchivedStems(lines[..|lines| - 1]) + if name != [] then {Stem(name)} else {}
  }

  lemma ArchivedStemsSnoc(lines: seq<string>, i: nat)
    requires i < |lines|
    ensures var name := Strip(lines[i]);
      ArchivedStems(lines[..i + 1]) == ArchivedStems(lines[..i]) + if name != [] then {Stem(name)} else {}
  {
    assert lines[..i + 1][..i] == lines[..i];
  }

  /** The archived stems are exactly the stems of the non-blank stripped
      lines. */
  lemma {:induction false} ArchivedStemsMembers(lines: seq<string>)
    ensures forall st :: st in ArchivedStems(lines) <==> exists l :: l in lines && Strip(l) != [] && Stem(Strip(l)) == st
  {
    if lines != [] {
      var front := lines[..|lines| - 1];
      ArchivedStemsMembers(front);
      assert forall y :: y in lines <==> y in front || y == lines[|lines| - 1];
    }
  }

  /** `existing_stems`: the stem of every entry of the output folder (logs
      included) and of every file recorded as archived. */
  function ExistingStems(output: map<string, File>): set<string> {
    (set f | f in output :: Stem(f)) + ArchivedStems(LinesOf(output, "completed.log"))
  }

  /** `failed_set`: the name part of every line of `failed.log` whose name
      part is not blank. */
  function FailedNames(lines: seq<string>): set<string> {
    if lines == [] then {}
    else
      var name := NamePart(lines[|lines| - 1]);
      FailedNames(lines[..|lines| - 1]) + if name != [] then {name} else {}
  }

  lemma FailedNamesSnoc(lines: seq<string>, i: nat)
    requires i < |lines|
    ensures var name := NamePart(lines[i]);
      FailedNames(lines[..i + 1]) == FailedNames(lines[..i]) + if name != [] then {name} else {}
  {
    assert lines[..i + 1][..i] == lines[..i];
  }

  /** The failed set holds exactly the non-blank name parts of the lines. */
  lemma {:induction false} FailedNamesMembers(lines: seq<string>)
    ensures forall n :: n in FailedNames(lines) <==> n != [] && exists l :: l in lines && NamePart(l) == n
  {
    if lines != [] {
      var front := lines[..|lines| - 1];
      FailedNamesMembers(front);
      assert forall y :: y in lines <==> y in front || y == lines[|lines| - 1];
    }
  }

  /** The loops of legacy/browser_unlock.py:67-82. */
  method LoadExistingStems(output: Directory) returns (stems: set<string>)
    ensures stems == ExistingStems(output.files)
  {
    var names := output.Listing();
    stems := set f | f in names :: Stem(f);
    assert stems == set f | f in output.files :: Stem(f);
    ghost var listed := stems;
    var lines := LinesOf(output.files, "completed.log");
    for i := 0 to |lines|
      invariant stems == listed + ArchivedStems(lines[..i])
    {
      ArchivedStemsSnoc(lines, i);
      var name := Strip(lines[i]);
      if name != [] {
        stems := stems + {Stem(name)};
      }
    }
    assert lines[..|lines|] == lines;
  }

  /** The loop of legacy/browser_unlock.py:91-99. */
  method LoadFailedSet(output: Directory) returns (failed: set<string>)
    ensures failed == FailedNames(LinesOf(output.files, "failed.log"))
  {
    failed := {};
    var lines := LinesOf(output.files, "failed.log");
    for i := 0 to |lines|
      invariant failed == FailedNames(lines[..i])
    {
      FailedNamesSnoc(lines, i);
      var name := NamePart(lines[i]);
      if name != [] {
        failed := failed + {name};
      }
    }
    assert lines[..|lines|] == lines;
  }

  /** Failed files are retried only when there are some and the operator
      answers `y` (lower-cased, not stripped). */
  predicate Retry(failed: set<string>, answer: string) {
    failed != {} && Lower(answer) == "y"
  }

  /** The queue and the two skip counters. */
  datatype ResumeRun = ResumeRun(queue: seq<string>, skippedExisting: nat, skippedFailed: nat)

  /** The loop of legacy/browser_unlock.py:114-127 over the candidates in
      listing order: a candidate whose stem is already present is skipped,
      then one recorded as failed unless failures are retried; the rest are
      queued. */
  function ResumeOf(cands: seq<string>, existing: set<string>, failed: set<string>, retry: bool): ResumeRun {
    if cands == [] then ResumeRun([], 0, 0)
    else
      var r := ResumeOf(cands[..|cands| - 1], existing, failed, retry);
      var x := cands[|cands| - 1];
      if Stem(x) in existing then r.(skippedExisting := r.skippedExisting + 1)
      else if !retry && x in failed then r.(skippedFailed := r.skippedFailed + 1)
      else r.(queue := r.queue + [x])
  }

  /** Every candidate lands in exactly one of the three outcomes; the queue
      holds exactly the candidates whose stem is not present and which are
      not skipped as failed, each once when the listing has no repeats; no
      failed file is skipped when failures are retried. */
  lemma {:induction false} ResumePartition(cands: seq<string>, existing: set<string>, failed: set<string>, retry: bool)
    ensures var r := ResumeOf(cands, existing, failed, retry);
      |r.queue| + r.skippedExisting + r.skippedFailed == |cands|
      && (forall x :: x in r.queue <==> x in cands && Stem(x) !in existing && (retry || x !in failed))
      && (NoDup(cands) ==> NoDup(r.queue))
      && (retry ==> r.skippedFailed == 0)
  {
    if cands != [] {
      var front := cands[..|cands| - 1];
      ResumePartition(front, existing, failed, retry);
      assert forall y :: y in cands <==> y in front || y == cands[|cands| - 1];
    }
  }

  /** One run over a listing followed by another over the rest: queues
      concatenated, counters added. */
  function Then(r1: ResumeRun, r2: ResumeRun): ResumeRun {
    ResumeRun(r1.queue + r2.queue, r1.skippedExisting + r2.skippedExisting, r1.skippedFailed + r2.skippedFailed)
  }

  lemma ResumeSnoc(front: seq<string>, x: string, existing: set<string>, failed: set<string>, retry: bool)
    ensures ResumeOf(front + [x], existing, failed, retry) ==
      Then(ResumeOf(front, existing, failed, retry), ResumeOf([x], existing, failed, retry))
  {
    assert (front + [x])[..|front + [x]| - 1] == front;
    assert [x][..0] == [];
  }

  lemma ThenAssoc(r1: ResumeRun, r2: ResumeRun, r3: ResumeRun)
    ensures Then(Then(r1, r2), r3) == Then(r1, Then(r2, r3))
  {
  }

  /** The queue keeps the listing order and the counters add up piece by
      piece: the run over a concatenation is the run over the first part
      followed by the run over the second. */
  lemma {:induction false} ResumeSplit(a: seq<string>, b: seq<string>, existing: set<string>, failed: set<string>, retry: bool)
    ensures ResumeOf(a + b, existing, failed, retry) ==
      Then(ResumeOf(a, existing, failed, retry), ResumeOf(b, existing, failed, retry))
  {
    if b == [] {
      assert a + b == a;
    } else {
      var front, x := b[..|b| - 1], b[|b| - 1];
      assert b == front + [x] && a + b == (a + front) + [x];
      ResumeSnoc(a + front, x, existing, failed, retry);
      ResumeSnoc(front, x, existing, failed, retry);
      ResumeSplit(a, front, existing, failed, retry);
      ThenAssoc(ResumeOf(a, existing, failed, retry), ResumeOf(front, existing, failed, retry), ResumeOf([x], existing, failed, retry));
    }
  }

  /** The positions of the candidates skipped because their stem is
      already present. */
  function ExistingAt(cands: seq<string>, existing: set<string>): set<int> {
    set i | 0 <= i < |cands| && Stem(cands[i]) in existing
  }

  /** The positions of the candidates skipped because they failed before
      and failures are not retried. */
  function FailedAt(cands: seq<string>, existing: set<string>, failed: set<string>, retry: bool): set<int> {
    set i | 0 <= i < |cands| && Stem(cands[i]) !in existing && !retry && cands[i] in failed
  }

  lemma SkipsSnoc(front: seq<string>, x: string, existing: set<string>, failed: set<string>, retry: bool)
    ensures ExistingAt(front + [x], existing) ==
      ExistingAt(front, existing) + (if Stem(x) in existing then {|front|} else {})
    ensures FailedAt(front + [x], existing, failed, retry) ==
      FailedAt(front, existing, failed, retry) + (if Stem(x) !in existing && !retry && x in failed then {|front|} else {})
    ensures |front| !in ExistingAt(front, existing) && |front| !in FailedAt(front, existing, failed, retry)
  {
    var c := front + [x];
    assert forall i :: 0 <= i < |front| ==> c[i] == front[i];
    assert c[|front|] == x;
  }

  /** Each skip counter counts exactly its own candidates: those whose stem
      is present, and those recorded as failed that are not retried. */
  lemma {:induction false} ResumeCounts(cands: seq<string>, existing: set<string>, failed: set<string>, retry: bool)
    ensures ResumeOf(cands, existing, failed, retry).skippedExisting == |ExistingAt(cands, existing)|
    ensures ResumeOf(cands, existing, failed, retry).skippedFailed == |FailedAt(cands, existing, failed, retry)|
  {
    if cands != [] {
      var front, x := cands[..|cands| - 1], cands[|cands| - 1];
      assert cands == front + [x];
      ResumeCounts(front, existing, failed, retry);
      ResumeSnoc(front, x, existing, failed, retry);
      SkipsSnoc(front, x, existing, failed, retry);
    }
  }

  /** The resume loop, queueing the joined paths of the files to convert. */
  method ResumeFilter(folder: string, cands: seq<string>, existing: set<string>, failed: set<string>, retry: bool)
    returns (toProcess: seq<string>, skippedExisting: nat, skippedFailed: nat)
    ensures var r := ResumeOf(cands, existing, failed, retry);
      toProcess == Paths(folder, r.queue) && skippedExisting == r.skippedExisting && skippedFailed == r.skippedFailed
  {
    toProcess, skippedExisting, skippedFailed := [], 0, 0;
    for i := 0 to |cands|
      invariant var r := ResumeOf(cands[..i], existing, failed, retry);
        toProcess == Paths(folder, r.queue) && skippedExisting == r.skippedExisting && skippedFailed == r.skippedFailed
    {
      assert cands[..i + 1][..i] == cands[..i];
      var fname := cands[i];
      if Stem(fname) in existing {
        skippedExisting := skippedExisting + 1;
      } else if !retry && fname in failed {
        skippedFailed := skippedFailed + 1;
      } else {
        ghost var q := ResumeOf(cands[..i], existing, failed, retry).queue;
        assert Paths(folder, q + [fname]) == Paths(folder, q) + [JoinPath(folder, fname)];
        toProcess := toProcess + [JoinPath(folder, fname)];
      }
    }
    assert cands[..|cands|] == cands;
  }

  /** legacy/browser_unlock.py:57-127: the encrypted files of `source` that
      still need converting, given its `output` folder and the answer to the
      retry question. */
  method PlanResume(folder: string, source: Directory, output: Directory, answer: string)
    returns (toProcess: seq<string>, skippedExisting: nat, skippedFailed: nat,
             ghost cands: seq<string>, ghost queue: seq<string>)
    ensures (forall x :: x in cands <==> x in source.files && HasSourceExt(x)) && NoDup(cands)
    ensures var existing, failed := ExistingStems(output.files), FailedNames(LinesOf(output.files, "failed.log"));
      queue == ResumeOf(cands, existing, failed, Retry(failed, answer)).queue
      && toProcess == Paths(folder, queue)
      && |toProcess| + skippedExisting + skippedFailed == |cands|
      && (forall x :: x in queue <==>
            x in source.files && HasSourceExt(x) && Stem(x) !in existing
            && (Retry(failed, answer) || x !in failed))
      && NoDup(queue)
      && (Retry(failed, answer) ==> skippedFailed == 0)
      && skippedExisting == ResumeOf(cands, existing, failed, Retry(failed, answer)).skippedExisting
      && skippedFailed == ResumeOf(cands, existing, failed, Retry(failed, answer)).skippedFailed
      && skippedExisting == |ExistingAt(cands, existing)|
      && skippedFailed == |FailedAt(cands, existing, failed, Retry(failed, answer))|
  {
    var names := source.Listing();
    var candidates := SourceFiles(names);
    cands := candidates;
    var existing := LoadExistingStems(output);
    var failed := LoadFailedSet(output);
    var retry := failed != {} && Lower(answer) == "y";
    toProcess, skippedExisting, skippedFailed := ResumeFilter(folder, candidates, existing, failed, retry);
    queue := ResumeOf(candidates, existing, failed, retry).queue;
    ResumePartition(candidates, existing, failed, retry);
    ResumeCounts(candidates, existing, failed, retry);
  }

  // ---------------------------------------------------------------------
  // Batches

  const BatchSize: nat := 10

  /** `(total + BATCH_SIZE - 1) // BATCH_SIZE`. */
  function TotalBatches(total: nat): nat {
    (total + BatchSize - 1) / BatchSize
  }

  /** The slices `files[i:i + 10]` for `i` in `range(0, len(files), 10)`. */
  function Batches(files: seq<string>): seq<seq<string>>
    decreases |files|
  {
    if files == [] then []
    else if |files| <= BatchSize then [files]
    else [files[..BatchSize]] + Batches(files[BatchSize..])
  }

  function Flatten(bs: seq<seq<string>>): seq<string> {
    if bs == [] then [] else bs[0] + Flatten(bs[1..])
  }

  /** There are `ceil(total / 10)` batches, each of one to ten files. */
  lemma {:induction false} BatchesSizes(files: seq<string>)
    ensures |Batches(files)| == TotalBatches(|files|)
    ensures forall b :: b in Batches(files) ==> 1 <= |b| <= BatchSize
  {
    if |files| > BatchSize {
      var rest := files[BatchSize..];
      BatchesSizes(rest);
      assert forall b :: b in Batches(files) ==> b == files[..BatchSize] || b in Batches(rest);
    } else if files != [] {
      assert Batches(files) == [files];
    }
  }

  /** Where batch `j` of a queue of `n` files ends. */
  function BatchEnd(j: nat, n: nat): nat {
    if (j + 1) * BatchSize <= n then (j + 1) * BatchSize else n
  }

  /** Batch `j` is the slice `files[10j : 10j + 10]`. */
  lemma {:induction false} BatchesSlices(files: seq<string>)
    ensures forall j :: 0 <= j < |Batches(files)| ==>
      j * BatchSize < |files| && Batches(files)[j] == files[j * BatchSize .. BatchEnd(j, |files|)]
  {
    if |files| > BatchSize {
      var rest := files[BatchSize..];
      BatchesSlices(rest);
      var bs := Batches(files);
      assert |bs| == 1 + |Batches(rest)|;
      forall j | 0 <= j < |bs|
        ensures j * BatchSize < |files| && bs[j] == files[j * BatchSize .. BatchEnd(j, |files|)]
      {
        if j > 0 {
          BatchSliceStep(files, rest, j, Batches(rest)[j - 1]);
        } else {
          assert bs[0] == files[..BatchSize] == files[0..BatchSize];
        }
      }
    } else if files != [] {
      assert Batches(files) == [files];
      assert files[0..|files|] == files;
    }
  }

  lemma BatchSliceStep(files: seq<string>, rest: seq<string>, j: nat, batch: seq<string>)
    requires |files| > BatchSize && rest == files[BatchSize..] && 0 < j
    requires (j - 1) * BatchSize < |rest| && batch == rest[(j - 1) * BatchSize .. BatchEnd(j - 1, |rest|)]
    ensures j * BatchSize < |files| && batch == files[j * BatchSize .. BatchEnd(j, |files|)]
  {
    var lo := (j - 1) * BatchSize;
    var hi := BatchEnd(j - 1, |rest|);
    assert lo + BatchSize == j * BatchSize;
    assert hi + BatchSize == BatchEnd(j, |files|);
    SliceOfSuffix(files, BatchSize, lo, hi);
  }

  lemma SliceOfSuffix(s: seq<string>, k: nat, lo: nat, hi: nat)
    requires k <= |s| && lo <= hi <= |s| - k
    ensures s[k..][lo..hi] == s[lo + k..hi + k]
  {
  }

  /** Together, in order, the batches are the whole queue. */
  lemma {:induction false} BatchesFlatten(files: seq<string>)
    ensures Flatten(Batches(files)) == files
  {
    if |files| > BatchSize {
      BatchesFlatten(files[BatchSize..]);
      assert Batches(files)[1..] == Batches(files[BatchSize..]);
      assert files == files[..BatchSize] + files[BatchSize..];
    } else if files != [] {
      assert Flatten(Batches(files)) == files + [];
    }
  }

  // ---------------------------------------------------------------------
  // Recording a batch

  /** `max(60, len(batch) * 5)`: the seconds to wait for a batch. */
  function MaxWait(batchLen: nat): (w: nat)
    ensures w >= 60 && w >= 5 * batchLen
    ensures w == 60 || w == 5 * batchLen
  {
    if 5 * batchLen > 60 then 5 * batchLen else 60
  }

  /** The entries of the output folder, `processed.log` aside. */
  function Snapshot(files: map<string, File>): set<string> {
    files.Keys - {"processed.log"}
  }

  /** `download_success`: at least as many new entries as files sent. */
  predicate DownloadSuccess(newCount: nat, batchLen: nat) {
    newCount >= batchLen
  }

  /** The batch is recorded on success, and also when some files arrived and
      at most two are missing. */
  predicate ShouldLog(newCount: nat, batchLen: nat) {
    DownloadSuccess(newCount, batchLen) || (newCount > 0 && newCount >= batchLen - 2)
  }

  /** For a real (non-empty) batch, it is recorded exactly when at least one
      new entry arrived and at most two files are missing. */
  lemma ShouldLogTolerance(newCount: nat, batchLen: nat)
    requires batchLen > 0
    ensures ShouldLog(newCount, batchLen) <==> newCount > 0 && newCount + 2 >= batchLen
  {
  }

  /** legacy/browser_unlock.py:237-280 once the wait is over: `initial` is
      the snapshot taken before the batch was sent and `output` holds what
      arrived. The batch's file names are appended to `processed.log` when
      the batch counts as done; the duplicate fix runs in every case. */
  method FinishBatch(output: Directory, batch: seq<string>, initial: set<string>)
    returns (logged: bool, ghost names: seq<string>)
    modifies output
    ensures logged == ShouldLog(|Snapshot(old(output.files)) - initial|, |batch|)
    ensures var afterLog := Appended(old(output.files), output.locked, "processed.log", if logged then BaseNames(batch) else []);
      IsListing(names, afterLog) && output.files == MicroAll(afterLog, output.locked, names)
  {
    var current := Snapshot(output.files);
    var newFiles := current - initial;
    var newCount := |newFiles|;
    var downloadSuccess := newCount >= |batch|;
    logged := downloadSuccess || (newCount > 0 && newCount >= |batch| - 2);
    if logged {
      AppendLog(output, "processed.log", BaseNames(batch));
    }
    names := MicroCleanup(output);
  }

  // ---------------------------------------------------------------------
  // The duplicate fix after each batch

  /** One variant `x` with sibling `sib` (legacy/browser_unlock.py:307-322):
      nothing unless both exist; a larger variant replaces its sibling (remove,
      then rename), an equal one is removed, a smaller one is left. A failing
      call ends this file's turn. */
  function MicroPair(files: map<string, File>, locked: set<string>, x: string, sib: string): map<string, File>
    requires x != sib
  {
    if sib !in files || x !in files then files
    else if files[x].size > files[sib].size then
      if !CanRemove(files, locked, sib) then files
      else
        var cleared := files - {sib};
        if CanRename(cleared, locked, x, sib) then Renamed(cleared, x, sib) else cleared
    else if files[x].size == files[sib].size then
      if CanRemove(files, locked, x) then files - {x} else files
    else files
  }

  /** One listed name: only numbered variants are looked at (`.log` names
      included). */
  function MicroStep(files: map<string, File>, locked: set<string>, name: string): map<string, File> {
    match Parse(name)
    case None => files
    case Some(v) => MicroPair(files, locked, name, Sibling(v))
  }

  /** The loop of legacy/browser_unlock.py:297-322 over a listing snapshot. */
  function MicroAll(files: map<string, File>, locked: set<string>, names: seq<string>): map<string, File> {
    if names == [] then files
    else MicroStep(MicroAll(files, locked, names[..|names| - 1]), locked, names[|names| - 1])
  }

  /** What the fix does to one pair: a lone variant or a smaller one is left
      alone; a larger one ends up under the sibling's name when nothing is
      locked; an equal one is removed, the sibling kept. */
  lemma MicroPairResult(files: map<string, File>, locked: set<string>, x: string, sib: string)
    requires x != sib
    ensures sib !in files || x !in files || files[x].size < files[sib].size ==> MicroPair(files, locked, x, sib) == files
    ensures sib in files && x in files && files[x].size > files[sib].size && x !in locked && sib !in locked ==>
      MicroPair(files, locked, x, sib) == (files - {x})[sib := files[x]]
    ensures sib in files && x in files && files[x].size == files[sib].size && x !in locked ==>
      MicroPair(files, locked, x, sib) == files - {x}
  {
    if sib in files && x in files && files[x].size > files[sib].size && x !in locked && sib !in locked {
      assert Renamed(files - {sib}, x, sib) == (files - {x})[sib := files[x]];
    }
  }

  /** The fix creates no name and no content: every file left is one of the
      old names holding one of the old files, and the larger of a pair is
      never the one removed without a copy surviving. */
  lemma MicroPairKeeps(files: map<string, File>, locked: set<string>, x: string, sib: string)
    requires x != sib
    ensures var r := MicroPair(files, locked, x, sib);
      r.Keys <= files.Keys
      && (forall n :: n in r ==> exists m :: m in files && files[m] == r[n])
      && (sib in files && x in files ==>
            exists m :: m in r && r[m].size == (if files[x].size > files[sib].size then files[x].size else files[sib].size))
  {
    var r := MicroPair(files, locked, x, sib);
    forall n | n in r ensures exists m :: m in files && files[m] == r[n] {
      if n == sib && sib in files && x in files && r[n] != files[sib] {
        assert files[x] == r[n];
      } else {
        assert files[n] == r[n];
      }
    }
    if sib in files && x in files {
      if sib in r && r[sib] == files[sib] {
      } else if x in r && r[x] == files[x] {
      } else {
        assert r[sib] == files[x];
      }
    }
  }

  /** Over a whole listing, the fix only removes files and moves a file onto
      its sibling's name: no new name appears, every remaining file holds
      content that was there before, and the folder does not grow. */
  lemma {:induction false} MicroAllKeeps(files: map<string, File>, locked: set<string>, names: seq<string>)
    ensures MicroAll(files, locked, names).Keys <= files.Keys
    ensures forall n :: n in MicroAll(files, locked, names) ==> exists m :: m in files && files[m] == MicroAll(files, locked, names)[n]
  {
    if names != [] {
      var front := MicroAll(files, locked, names[..|names| - 1]);
      MicroAllKeeps(files, locked, names[..|names| - 1]);
      var name := names[|names| - 1];
      match Parse(name)
      case None =>
      case Some(v) =>
        MicroPairKeeps(front, locked, name, Sibling(v));
    }
  }

  /** `run_micro_cleanup` (legacy/browser_unlock.py:290-324) on the output
      folder, `null` when it does not exist. */
  method MicroCleanup(output: Directory?) returns (ghost names: seq<string>)
    modifies output
    ensures output != null ==> IsListing(names, old(output.files)) && output.files == MicroAll(old(output.files), output.locked, names)
  {
    names := [];
    if output == null {
      return;
    }
    var files := output.Listing();
    names := files;
    ghost var f0 := output.files;
    for i := 0 to |files|
      invariant output.files == MicroAll(f0, output.locked, files[..i])
    {
      assert files[..i + 1][..i] == files[..i];
      var fname := files[i];
      var parsed := Parse(fname);
      if parsed.Some? {
        var sib := Sibling(parsed.value);
        if sib in output.files && fname in output.files {
          var sizeEnc, sizeOrig := output.files[fname].size, output.files[sib].size;
          if sizeEnc > sizeOrig {
            var ok := output.Remove(sib);
            if ok {
              ok := output.Rename(fname, sib);
            }
          } else if sizeEnc == sizeOrig {
            var ok := output.Remove(fname);
          }
        }
      }
    }
    assert files[..|files|] == files;
  }
}
