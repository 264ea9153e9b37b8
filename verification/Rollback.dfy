/** Putting a captured directory back: what a rollback does to the disk, what its report says of each path,
    and why it may be interrupted at any point without harm. */
module Rollbacks {
  import opened Text
  import opened Disks
  import opened Sorting
  import opened Snapshots

  datatype Report = Report(restored: seq<Path>, deleted: seq<Path>, failed: seq<Path>)

  // ----- temporary names -----

  function TempName(name: string, stamp: nat): string {
    "." + name + ".kam-restore-" + Decimal(stamp)
  }

  function TempPath(p: Path, stamp: nat): Path
    requires p != []
  {
    p[..|p| - 1] + [TempName(p[|p| - 1], stamp)]
  }

  /** The paths rollbacks write through. */
  ghost predicate Temporary(p: Path) {
    exists q: Path, stamp: nat :: q != [] && p == TempPath(q, stamp)
  }

  /** What an interrupted rollback leaves behind is never taken for a document. */
  lemma {:induction false} TempNeverTracked(name: string, stamp: nat)
    ensures !IsTrackedName(TempName(name, stamp))
  {
    var last := "kam-restore-" + Decimal(stamp);
    assert TempName(name, stamp) == ("." + name) + ['.'] + last;
    SplitLast("." + name, last, '.');
    assert last[1] == 'a';
  }

  lemma {:induction false} TemporaryIsUntracked(p: Path)
    requires Temporary(p)
    ensures p != [] && !IsTrackedName(p[|p| - 1])
  {
    var q: Path, stamp: nat :| q != [] && p == TempPath(q, stamp);
    TempNeverTracked(q[|q| - 1], stamp);
  }

  lemma {:induction false} VisibleIsTracked(roots: seq<Path>, limits: Limits, p: Path)
    requires Visible(roots, limits, p)
    ensures p != [] && !Temporary(p)
  {
    if Temporary(p) {
      TemporaryIsUntracked(p);
      assert false;
    }
  }

  // ----- one file -----

  /** What any state during the writing of one file looks like. */
  ghost predicate WriteStep(before: Files, now: Files, p: Path, tmp: Path, bytes: Bytes) {
    && SameBut(now, before, p, tmp)
    && (Same(now, before, p) || (p in now && now[p] == bytes))
  }

  method WriteAtomic(disk: Disk, p: Path, bytes: Bytes, stamp: nat) returns (ok: bool)
    requires disk.Valid() && p != []
    modifies disk
    ensures disk.Valid()
    ensures WriteStep(old(disk.files), disk.files, p, TempPath(p, stamp), bytes)
    ensures ok ==> p in disk.files && disk.files[p] == bytes && TempPath(p, stamp) !in disk.files
    ensures !ok ==> Same(disk.files, old(disk.files), p)
    ensures disk.faults >= old(disk.faults) && (ok <==> disk.faults == old(disk.faults))
    ensures old(disk.history) <= disk.history
    ensures forall i | |old(disk.history)| <= i < |disk.history| ::
              WriteStep(old(disk.files), disk.history[i], p, TempPath(p, stamp), bytes)
  {
    var tmp := TempPath(p, stamp);
    assert tmp[|tmp| - 1] == TempName(p[|p| - 1], stamp);
    assert |TempName(p[|p| - 1], stamp)| > |p[|p| - 1]|;
    ok := disk.CreateDirs(p[..|p| - 1]);
    if !ok {
      return;
    }
    ok := disk.Write(tmp, bytes);
    if !ok {
      return;
    }
    ok := disk.Rename(tmp, p);
    if !ok {
      var _ := disk.Remove(tmp);
    }
  }

  // ----- interruption -----

  /** Any state a rollback that began in `start` passes through: a captured path holds what it held
      or what was captured, and the only other changes are removals of uncaptured visible files. */
  ghost predicate SafeState(start: Files, now: Files, snap: Snapshot) {
    && (forall p | p in snap.files :: Same(now, start, p) || Same(now, snap.files, p))
    && (forall p | p !in snap.files && !Temporary(p) ::
          Same(now, start, p) || (p !in now && Visible(snap.roots, snap.limits, p)))
  }

  ghost predicate SafeSince(start: Files, history: seq<Files>, from: nat, snap: Snapshot) {
    forall i | from <= i < |history| :: SafeState(start, history[i], snap)
  }

  lemma {:induction false} SafeWrite(start: Files, before: Files, now: Files, snap: Snapshot, p: Path, stamp: nat)
    requires Sound(snap) && p in snap.files && p != []
    requires SafeState(start, before, snap)
    requires WriteStep(before, now, p, TempPath(p, stamp), snap.files[p])
    ensures SafeState(start, now, snap)
  {
    hide Visible, Sound;
    var tmp := TempPath(p, stamp);
    assert Temporary(tmp);
    hide Temporary, TempPath;
    forall q | q in snap.files
      ensures Same(now, start, q) || Same(now, snap.files, q)
    {
      CapturedPath(snap, q);
      assert q == p || Same(now, before, q);
    }
    forall q | q !in snap.files && !Temporary(q)
      ensures Same(now, start, q) || (q !in now && Visible(snap.roots, snap.limits, q))
    {
      assert Same(now, before, q);
    }
  }

  lemma {:induction false} SafeRemoval(start: Files, before: Files, snap: Snapshot, p: Path)
    requires p !in snap.files && Visible(snap.roots, snap.limits, p)
    requires SafeState(start, before, snap)
    ensures SafeState(start, before - {p}, snap)
  {
  }

  // ----- writing back -----

  /** What every snapshot has: roots apart, and only files the walk can reach. */
  ghost predicate Sound(snap: Snapshot) {
    && Apart(snap.roots) && |snap.files| <= snap.limits.maxFiles
    && forall p | p in snap.files :: Visible(snap.roots, snap.limits, p)
  }

  lemma {:induction false} CapturedIsSound(files: Files, roots0: seq<Path>, limits: Limits, snap: Snapshot)
    requires Captures(files, roots0, limits, snap)
    ensures Sound(snap) && AsCaptured(files, snap)
  {
    NormalisedWell(roots0);
  }

  /** After the first loop has dealt with the captured paths in `done`. */
  ghost predicate WrittenBack(
      start: Files, now: Files, snap: Snapshot, done: set<Path>, restored: seq<Path>, failed: seq<Path>)
  {
    && NoRepeats(restored + failed)
    && (forall p | p in restored + failed :: p in done)
    && (forall p | p in restored :: p in snap.files && Same(now, snap.files, p))
    && (forall p | p in done && p !in restored + failed :: Same(start, snap.files, p))
    && (forall p | p !in restored && !Temporary(p) :: Same(now, start, p))
    && (restored + failed == [] ==> now == start)
  }

  datatype Fate = Kept | Put | NotPut

  /** One captured path: left alone if its content already matches, else written. */
  method PutBack(disk: Disk, snap: Snapshot, p: Path, ghost start: Files, ghost first: nat)
    returns (fate: Fate, stamp: nat)
    requires disk.Valid() && Sound(snap) && p in snap.files
    requires SafeState(start, disk.files, snap) && SafeSince(start, disk.history, first, snap)
    modifies disk
    ensures disk.Valid() && p != []
    ensures fate.Kept? ==> disk.files == old(disk.files)
    ensures !fate.Kept? ==> WriteStep(old(disk.files), disk.files, p, TempPath(p, stamp), snap.files[p])
    ensures !fate.Kept? && disk.faults == old(disk.faults) ==>
              !(p in old(disk.files) && old(disk.files)[p] == snap.files[p])
    ensures !fate.NotPut? ==> p in disk.files && disk.files[p] == snap.files[p]
    ensures fate.NotPut? ==> disk.faults > old(disk.faults) && Same(disk.files, old(disk.files), p)
    ensures disk.faults >= old(disk.faults) && old(disk.history) <= disk.history
    ensures SafeState(start, disk.files, snap) && SafeSince(start, disk.history, first, snap)
  {
    hide *;
    CapturedPath(snap, p);
    stamp := *;
    var reading := disk.Read(p);
    if reading.Content? && reading.bytes == snap.files[p] {
      return Kept, stamp;
    }
    ghost var was, before := disk.files, disk.history;
    var ok := WriteAtomic(disk, p, snap.files[p], stamp);
    SafeWrites(start, was, disk.files, snap, p, stamp, before, disk.history, first);
    fate := if ok then Put else NotPut;
  }

  method WriteBack(disk: Disk, snap: Snapshot) returns (restored: seq<Path>, failed: seq<Path>)
    requires disk.Valid() && Sound(snap)
    modifies disk
    ensures disk.Valid()
    ensures WrittenBack(old(disk.files), disk.files, snap, snap.files.Keys, restored, failed)
    ensures disk.faults >= old(disk.faults) && (disk.faults == old(disk.faults) ==> failed == [])
    ensures disk.faults == old(disk.faults) && AsCaptured(old(disk.files), snap) ==> restored == []
    ensures old(disk.history) <= disk.history && SafeState(old(disk.files), disk.files, snap)
    ensures SafeSince(old(disk.files), disk.history, |old(disk.history)|, snap)
  {
    hide *;
    restored, failed := [], [];
    ghost var start, first := disk.files, |disk.history|;
    var rest := snap.files.Keys;
    ghost var done: set<Path> := {};
    BackStart(start, snap, disk.history);
    while rest != {}
      invariant rest <= snap.files.Keys && done == snap.files.Keys - rest
      invariant disk.Valid() && disk.faults >= old(disk.faults)
      invariant WrittenBack(start, disk.files, snap, done, restored, failed)
      invariant disk.faults == old(disk.faults) ==> failed == []
      invariant disk.faults == old(disk.faults) && AsCaptured(start, snap) ==> restored == []
      invariant old(disk.history) <= disk.history && SafeState(start, disk.files, snap)
      invariant SafeSince(start, disk.history, first, snap)
      decreases |rest|
    {
      var p :| p in rest;
      rest := rest - {p};
      CapturedPath(snap, p);
      ghost var was, faults := disk.files, disk.faults;
      var fate, stamp := PutBack(disk, snap, p, start, first);
      if fate.Kept? {
        BackKept(start, was, snap, done, restored, failed, p);
      } else {
        if disk.faults == faults {
          BackDiffers(start, was, snap, done, restored, failed, p);
        }
        if fate.Put? {
          BackRestored(start, was, disk.files, snap, done, restored, failed, p, stamp);
          restored := restored + [p];
        } else {
          BackFailed(start, was, disk.files, snap, done, restored, failed, p, stamp);
          failed := failed + [p];
        }
      }
      done := done + {p};
    }
    assert done == snap.files.Keys;
  }

  lemma {:induction false} CapturedPath(snap: Snapshot, p: Path)
    requires Sound(snap) && p in snap.files
    ensures p != [] && !Temporary(p)
  {
    VisibleIsTracked(snap.roots, snap.limits, p);
  }

  lemma {:induction false} BackStart(start: Files, snap: Snapshot, history: seq<Files>)
    ensures WrittenBack(start, start, snap, {}, [], []) && SafeState(start, start, snap)
    ensures SafeSince(start, history, |history|, snap)
  {
  }

  lemma {:induction false} BackKept(start: Files, now: Files, snap: Snapshot, done: set<Path>, restored: seq<Path>,
                                    failed: seq<Path>, p: Path)
    requires WrittenBack(start, now, snap, done, restored, failed) && p !in done && !Temporary(p)
    requires p in snap.files && p in now && now[p] == snap.files[p]
    ensures WrittenBack(start, now, snap, done + {p}, restored, failed)
  {
    assert p !in restored + failed;
    assert p !in restored;
  }

  lemma {:induction false} BackDiffers(start: Files, now: Files, snap: Snapshot, done: set<Path>, restored: seq<Path>,
                                       failed: seq<Path>, p: Path)
    requires WrittenBack(start, now, snap, done, restored, failed) && p !in done && !Temporary(p)
    requires p in snap.files && !(p in now && now[p] == snap.files[p])
    ensures !AsCaptured(start, snap)
  {
    assert p !in restored + failed;
    assert p !in restored;
    assert Same(now, start, p);
    assert AsCaptured(start, snap) ==> Same(start, snap.files, p);
  }

  lemma {:induction false} NoRepeatsAppend<T>(a: seq<T>, b: seq<T>, x: T)
    requires NoRepeats(a + b) && x !in a + b
    ensures NoRepeats(a + [x] + b) && NoRepeats(a + (b + [x]))
    ensures forall y :: y in a + [x] + b <==> y in a + b || y == x
    ensures forall y :: y in a + (b + [x]) <==> y in a + b || y == x
  {
    NoRepeatsByCount(a + b);
    assert multiset(a + [x] + b) == multiset(a + b) + multiset{x};
    assert multiset(a + (b + [x])) == multiset(a + b) + multiset{x};
    assert multiset(a + b)[x] == 0;
    NoRepeatsByCount(a + [x] + b);
    NoRepeatsByCount(a + (b + [x]));
  }

  lemma {:induction false} BackRestored(
      start: Files, was: Files, now: Files, snap: Snapshot, done: set<Path>, restored: seq<Path>,
      failed: seq<Path>, p: Path, stamp: nat)
    requires WrittenBack(start, was, snap, done, restored, failed) && p !in done && p != [] && p in snap.files
    requires Sound(snap) && WriteStep(was, now, p, TempPath(p, stamp), snap.files[p])
    requires p in now && now[p] == snap.files[p]
    ensures WrittenBack(start, now, snap, done + {p}, restored + [p], failed)
  {
    hide Visible, Apart, TempPath, NoRepeats, Sound;
    assert Temporary(TempPath(p, stamp));
    NoRepeatsAppend(restored, failed, p);
    forall q | q in restored
      ensures Same(now, snap.files, q)
    {
      CapturedPath(snap, q);
      assert q in restored + failed && q != p;
      assert Same(now, was, q) && Same(was, snap.files, q);
    }
    forall q | q !in restored && !Temporary(q) && q != p
      ensures Same(now, start, q)
    {
      assert Same(now, was, q) && Same(was, start, q);
    }
  }

  lemma {:induction false} BackFailed(
      start: Files, was: Files, now: Files, snap: Snapshot, done: set<Path>, restored: seq<Path>,
      failed: seq<Path>, p: Path, stamp: nat)
    requires WrittenBack(start, was, snap, done, restored, failed) && p !in done && p != [] && p in snap.files
    requires Sound(snap) && WriteStep(was, now, p, TempPath(p, stamp), snap.files[p]) && Same(now, was, p)
    ensures WrittenBack(start, now, snap, done + {p}, restored, failed + [p])
  {
    hide Visible, Apart, TempPath, NoRepeats, Sound;
    assert Temporary(TempPath(p, stamp));
    NoRepeatsAppend(restored, failed, p);
    forall q | q in restored
      ensures Same(now, snap.files, q)
    {
      CapturedPath(snap, q);
      assert q in restored + failed && q != p;
      assert Same(now, was, q) && Same(was, snap.files, q);
    }
    forall q | q !in restored && !Temporary(q) && q != p
      ensures Same(now, start, q)
    {
      assert Same(now, was, q) && Same(was, start, q);
    }
  }

  lemma {:induction false} SafeWrites(start: Files, was: Files, now: Files, snap: Snapshot, p: Path, stamp: nat,
                                      before: seq<Files>, after: seq<Files>, first: nat)
    requires Sound(snap) && p in snap.files && p != []
    requires SafeState(start, was, snap) && SafeSince(start, before, first, snap)
    requires WriteStep(was, now, p, TempPath(p, stamp), snap.files[p]) && before <= after
    requires forall i | |before| <= i < |after| :: WriteStep(was, after[i], p, TempPath(p, stamp), snap.files[p])
    ensures SafeState(start, now, snap) && SafeSince(start, after, first, snap)
  {
    SafeWrite(start, was, now, snap, p, stamp);
    forall i | first <= i < |after|
      ensures SafeState(start, after[i], snap)
    {
      if i < |before| {
        assert after[i] == before[i];
      } else {
        SafeWrite(start, was, after[i], snap, p, stamp);
      }
    }
  }

  /** The tracked files under the roots are exactly the captured ones, with their captured content. */
  ghost predicate AsCaptured(files: Files, snap: Snapshot) {
    && VisibleFiles(files, snap.roots, snap.limits) == snap.files.Keys
    && forall p | p in snap.files :: Same(files, snap.files, p)
  }

  // ----- removing what was created -----

  /** After the second loop has dealt with the first `n` rescanned paths. */
  ghost predicate Swept(
      mid: Files, now: Files, snap: Snapshot, paths: seq<Path>, n: nat, deleted: seq<Path>, failed: seq<Path>)
    requires n <= |paths|
  {
    && NoRepeats(deleted + failed)
    && (forall p | p in deleted + failed :: p in paths[..n] && p !in snap.files && p in mid)
    && (forall p | p in deleted :: p !in now)
    && (forall p | p in paths[..n] && p !in snap.files :: p in deleted + failed)
    && (forall p | p !in deleted :: Same(now, mid, p))
    && (deleted + failed == [] ==> now == mid)
  }

  method Sweep(disk: Disk, snap: Snapshot, paths: seq<Path>, ghost start: Files, ghost first: nat)
    returns (deleted: seq<Path>, failed: seq<Path>)
    requires disk.Valid() && NoRepeats(paths)
    requires forall p | p in paths :: p in disk.files && Visible(snap.roots, snap.limits, p)
    requires SafeState(start, disk.files, snap) && SafeSince(start, disk.history, first, snap)
    modifies disk
    ensures disk.Valid()
    ensures Swept(old(disk.files), disk.files, snap, paths, |paths|, deleted, failed)
    ensures disk.faults >= old(disk.faults) && (disk.faults == old(disk.faults) ==> failed == [])
    ensures old(disk.history) <= disk.history && SafeSince(start, disk.history, first, snap)
  {
    hide Swept, SafeState, Visible, NoRepeats;
    deleted, failed := [], [];
    ghost var mid := disk.files;
    SweepStart(mid, snap, paths);
    for n := 0 to |paths|
      invariant disk.Valid() && disk.faults >= old(disk.faults)
      invariant Swept(mid, disk.files, snap, paths, n, deleted, failed)
      invariant disk.faults == old(disk.faults) ==> failed == []
      invariant old(disk.history) <= disk.history
      invariant SafeState(start, disk.files, snap) && SafeSince(start, disk.history, first, snap)
    {
      var p := paths[n];
      if p in snap.files {
        SweepKept(mid, disk.files, snap, paths, n, deleted, failed);
        continue;
      }
      ghost var was := disk.files;
      SweepStep(mid, was, snap, paths, n, deleted, failed);
      var removal := disk.Remove(p);
      if removal.Removed? {
        deleted := deleted + [p];
        SafeRemoval(start, was, snap, p);
      } else if removal.Refused? {
        failed := failed + [p];
      }
    }
  }

  lemma {:induction false} SweepStart(mid: Files, snap: Snapshot, paths: seq<Path>)
    ensures Swept(mid, mid, snap, paths, 0, [], [])
  {
  }

  lemma {:induction false} SweepKept(
      mid: Files, now: Files, snap: Snapshot, paths: seq<Path>, n: nat, deleted: seq<Path>, failed: seq<Path>)
    requires n < |paths| && paths[n] in snap.files && Swept(mid, now, snap, paths, n, deleted, failed)
    ensures Swept(mid, now, snap, paths, n + 1, deleted, failed)
  {
    TakeOneMore(paths, n);
  }

  /** The next rescanned path is still there, whether or not it can then be removed. */
  lemma {:induction false} SweepStep(
      mid: Files, now: Files, snap: Snapshot, paths: seq<Path>, n: nat, deleted: seq<Path>, failed: seq<Path>)
    requires n < |paths| && NoRepeats(paths) && paths[n] in mid && paths[n] !in snap.files
    requires Swept(mid, now, snap, paths, n, deleted, failed)
    ensures paths[n] in now
    ensures Swept(mid, now - {paths[n]}, snap, paths, n + 1, deleted + [paths[n]], failed)
    ensures Swept(mid, now, snap, paths, n + 1, deleted, failed + [paths[n]])
  {
    TakeOneMore(paths, n);
    assert paths[n] !in paths[..n];
    assert paths[n] !in deleted + failed;
    NoRepeatsAppend(deleted, failed, paths[n]);
    assert deleted + (failed + [paths[n]]) == deleted + failed + [paths[n]];
  }

  // ----- the whole rollback -----

  predicate Mentioned(report: Report, p: Path) {
    p in report.restored || p in report.deleted || p in report.failed
  }

  /** What a report of a rollback from `start` to `now` says, given the paths its rescan found. */
  ghost predicate Tells(start: Files, now: Files, snap: Snapshot, found: set<Path>, report: Report) {
    && NoRepeats(report.restored) && NoRepeats(report.deleted) && NoRepeats(report.failed)
    && (forall p | p in report.restored :: p in snap.files && Same(now, snap.files, p) && p !in report.failed)
    && (forall p | p in report.deleted ::
         p !in snap.files && p in found && p in start && p !in now && p !in report.failed)
    && (forall p | p in report.failed :: Same(now, start, p) && (p in snap.files || (p in found && p in start)))
    && (forall p | !Mentioned(report, p) && !Temporary(p) :: Same(now, start, p))
    && (forall p | !Mentioned(report, p) && p in snap.files :: Same(now, snap.files, p))
    && (forall p | !Mentioned(report, p) && p in found :: p in snap.files)
  }

  lemma {:induction false} SoundParts(snap: Snapshot)
    requires Sound(snap)
    ensures Apart(snap.roots) && |snap.files| <= snap.limits.maxFiles
  {
  }

  lemma {:induction false} AfterWriting(
      start: Files, mid: Files, snap: Snapshot, restored: seq<Path>, failed: seq<Path>)
    requires Sound(snap) && WrittenBack(start, mid, snap, snap.files.Keys, restored, failed)
    ensures VisibleFiles(mid, snap.roots, snap.limits) <= VisibleFiles(start, snap.roots, snap.limits) + snap.files.Keys
    ensures VisibleFiles(start, snap.roots, snap.limits) <= VisibleFiles(mid, snap.roots, snap.limits) + snap.files.Keys
    ensures failed == [] ==> snap.files.Keys <= VisibleFiles(mid, snap.roots, snap.limits)
    ensures failed == [] ==> forall p | p in snap.files :: Same(mid, snap.files, p)
  {
    hide Apart, Temporary, NoRepeats, Visible;
    forall p | Visible(snap.roots, snap.limits, p) && p !in snap.files
      ensures p in start <==> p in mid
    {
      VisibleIsTracked(snap.roots, snap.limits, p);
      assert Same(mid, start, p);
    }
    if failed == [] {
      forall p | p in snap.files
        ensures Same(mid, snap.files, p)
      {
        VisibleIsTracked(snap.roots, snap.limits, p);
        assert restored + failed == restored;
        assert p in restored || (Same(start, snap.files, p) && Same(mid, start, p));
      }
    }
  }

  lemma {:induction false} FoundPaths(mid: Files, snap: Snapshot, paths: seq<Path>)
    requires Elements(paths) <= VisibleFiles(mid, snap.roots, snap.limits)
    ensures forall p | p in paths :: p in mid && Visible(snap.roots, snap.limits, p)
  {
    assert forall p | p in paths :: p in Elements(paths);
  }

  lemma {:induction false} SortedReport(start: Files, now: Files, snap: Snapshot, found: set<Path>, report: Report)
    requires Tells(start, now, snap, found, report)
    ensures var less := (a: Path, b: Path) => PathLess(a, b);
            Tells(start, now, snap, found,
                Report(Sort(report.restored, less), Sort(report.deleted, less), report.failed))
            && Sorted(Sort(report.restored, less), less) && Sorted(Sort(report.deleted, less), less)
  {
    PathOrder();
    SortSorts(report.restored, (a: Path, b: Path) => PathLess(a, b));
    SortSorts(report.deleted, (a: Path, b: Path) => PathLess(a, b));
    hide Temporary, NoRepeats, Same;
    var less := (a: Path, b: Path) => PathLess(a, b);
    SortDistinct(report.restored, less);
    SortDistinct(report.deleted, less);
    SameMembers(report.restored, less);
    SameMembers(report.deleted, less);
    var sorted := Report(Sort(report.restored, less), Sort(report.deleted, less), report.failed);
    assert forall p :: Mentioned(sorted, p) <==> Mentioned(report, p);
  }

  lemma {:induction false} Reported(
      start: Files, mid: Files, now: Files, snap: Snapshot, restored: seq<Path>, failed: seq<Path>,
      paths: seq<Path>, deleted: seq<Path>, refused: seq<Path>)
    requires Sound(snap) && WrittenBack(start, mid, snap, snap.files.Keys, restored, failed)
    requires Swept(mid, now, snap, paths, |paths|, deleted, refused)
    requires forall p | p in paths :: p in mid && Visible(snap.roots, snap.limits, p)
    ensures Tells(start, now, snap, Elements(paths), Report(restored, deleted, failed + refused))
  {
    hide Apart, Temporary, Visible, NoRepeats, Same;
    NoRepeatsParts(restored, failed);
    NoRepeatsParts(deleted, refused);
    assert paths[..|paths|] == paths;
    NoRepeatsTogether(failed, refused, snap.files.Keys);
    var report := Report(restored, deleted, failed + refused);
    forall p | p in deleted + refused
      ensures p in start && p in Elements(paths) && p !in restored && Same(mid, start, p) && p !in snap.files
    {
      NewFile(start, mid, snap, restored, failed, p);
    }
    forall p
      ensures p in restored ==> Same(now, snap.files, p) && p in snap.files
      ensures p in failed ==> Same(now, start, p) && p in snap.files
      ensures p in refused ==> Same(now, start, p)
      ensures !Mentioned(report, p) && !Temporary(p) ==> Same(now, start, p)
      ensures !Mentioned(report, p) && p in snap.files ==> Same(now, snap.files, p)
    {
      FateOf(start, mid, now, snap, restored, failed, paths, deleted, refused, p);
    }
  }

  lemma {:induction false} NewFile(
      start: Files, mid: Files, snap: Snapshot, restored: seq<Path>, failed: seq<Path>, p: Path)
    requires WrittenBack(start, mid, snap, snap.files.Keys, restored, failed)
    requires p in mid && p !in snap.files && Visible(snap.roots, snap.limits, p)
    ensures p in start && p !in restored && Same(mid, start, p)
  {
    VisibleIsTracked(snap.roots, snap.limits, p);
  }

  lemma {:induction false} FateOf(
      start: Files, mid: Files, now: Files, snap: Snapshot, restored: seq<Path>, failed: seq<Path>,
      paths: seq<Path>, deleted: seq<Path>, refused: seq<Path>, p: Path)
    requires Sound(snap) && WrittenBack(start, mid, snap, snap.files.Keys, restored, failed)
    requires Swept(mid, now, snap, paths, |paths|, deleted, refused)
    requires forall q | q in paths :: q in mid && Visible(snap.roots, snap.limits, q)
    ensures p in restored ==> p in snap.files && Same(now, snap.files, p)
    ensures p in failed ==> p in snap.files && Same(now, start, p)
    ensures p in refused ==> Same(now, start, p)
    ensures p !in restored + failed + (deleted + refused) && !Temporary(p) ==> Same(now, start, p)
    ensures p !in restored + failed + (deleted + refused) && p in snap.files ==> Same(now, snap.files, p)
  {
    hide Apart, Temporary, Visible;
    NoRepeatsParts(restored, failed);
    NoRepeatsParts(deleted, refused);
    assert paths[..|paths|] == paths;
    assert p in deleted || p in refused ==> p in deleted + refused;
    assert p in restored || p in failed ==> p in restored + failed;
    if p in refused {
      NewFile(start, mid, snap, restored, failed, p);
      assert Same(now, mid, p);
    } else if p in snap.files {
      VisibleIsTracked(snap.roots, snap.limits, p);
      assert Same(now, mid, p);
    }
  }

  lemma {:induction false} NoRepeatsParts<T>(a: seq<T>, b: seq<T>)
    requires NoRepeats(a + b)
    ensures NoRepeats(a) && NoRepeats(b) && forall x | x in a :: x !in b
  {
    var c := a + b;
    assert forall i | 0 <= i < |a| :: a[i] == c[i];
    assert forall i | 0 <= i < |b| :: b[i] == c[|a| + i];
  }

  lemma {:induction false} NoRepeatsTogether<T>(a: seq<T>, b: seq<T>, kind: set<T>)
    requires NoRepeats(a) && NoRepeats(b)
    requires (forall x | x in a :: x in kind) && forall x | x in b :: x !in kind
    ensures NoRepeats(a + b)
  {
    var c := a + b;
    assert forall i | 0 <= i < |a| :: c[i] == a[i] && c[i] in a;
    assert forall i | |a| <= i < |c| :: c[i] == b[i - |a|] && c[i] in b;
  }

  /** With every operation answered, the captured state is back exactly when the rescan found every
      file created since. */
  lemma {:induction false} AllRestored(
      start: Files, mid: Files, now: Files, snap: Snapshot, restored: seq<Path>, paths: seq<Path>, deleted: seq<Path>)
    requires Sound(snap) && WrittenBack(start, mid, snap, snap.files.Keys, restored, [])
    requires Swept(mid, now, snap, paths, |paths|, deleted, [])
    requires Elements(paths) <= VisibleFiles(mid, snap.roots, snap.limits)
    ensures AsCaptured(now, snap) <==>
            VisibleFiles(start, snap.roots, snap.limits) - snap.files.Keys <= Elements(paths)
  {
    hide Visible, Apart, Temporary, WrittenBack, Sound;
    AfterWriting(start, mid, snap, restored, []);
    assert paths[..|paths|] == paths && deleted + [] == deleted;
    forall p | p in snap.files
      ensures Same(now, snap.files, p) && p in now && Visible(snap.roots, snap.limits, p)
    {
      assert p in VisibleFiles(mid, snap.roots, snap.limits);
      assert p in deleted ==> p !in snap.files;
      assert Same(now, mid, p);
    }
    var seen := VisibleFiles(start, snap.roots, snap.limits) - snap.files.Keys;
    forall p | p in seen
      ensures p in VisibleFiles(now, snap.roots, snap.limits) <==> p !in Elements(paths)
    {
      assert p in VisibleFiles(mid, snap.roots, snap.limits);
      assert Same(now, mid, p) || p in deleted;
    }
    forall p | p in VisibleFiles(now, snap.roots, snap.limits) && p !in snap.files
      ensures p in seen
    {
      assert p in mid by {
        assert p !in deleted ==> Same(now, mid, p);
      }
      assert p in VisibleFiles(mid, snap.roots, snap.limits);
    }
  }

  /** A directory already in its captured state is left alone. */
  lemma {:induction false} NothingToDo(mid: Files, now: Files, snap: Snapshot, paths: seq<Path>, deleted: seq<Path>)
    requires AsCaptured(mid, snap) && Swept(mid, now, snap, paths, |paths|, deleted, [])
    requires Elements(paths) <= VisibleFiles(mid, snap.roots, snap.limits)
    ensures deleted == [] && now == mid
  {
    hide VisibleFiles;
    assert paths[..|paths|] == paths && deleted + [] == deleted;
    assert forall p | p in paths :: p in Elements(paths);
    FirstIsMember(deleted);
  }

  /** When nothing fails, everything is found if and only if no root has more files than it is allowed,
      each root's files are if and only if that root has not, and the captured state is back if and only
      if every file created since was found. */
  ghost predicate Exactly(start: Files, now: Files, snap: Snapshot, found: set<Path>) {
    var before := VisibleFiles(start, snap.roots, snap.limits);
    && (found == before + snap.files.Keys <==> WithinQuota(before + snap.files.Keys, snap.roots, snap.limits))
    && EachRoot(before + snap.files.Keys, snap.roots, |snap.roots|, snap.limits, found)
    && (AsCaptured(now, snap) <==> before - snap.files.Keys <= found)
  }

  method Restore(disk: Disk, snap: Snapshot) returns (report: Report, ghost found: set<Path>)
    requires disk.Valid() && Sound(snap)
    modifies disk
    ensures disk.Valid() && disk.faults >= old(disk.faults)
    ensures found <= VisibleFiles(old(disk.files), snap.roots, snap.limits) + snap.files.Keys
    ensures Tells(old(disk.files), disk.files, snap, found, report)
    ensures old(disk.history) <= disk.history && SafeSince(old(disk.files), disk.history, |old(disk.history)|, snap)
    ensures disk.faults == old(disk.faults) ==>
              Exactly(old(disk.files), disk.files, snap, found) && report.failed == []
    ensures disk.faults == old(disk.faults) && AsCaptured(old(disk.files), snap) ==>
              report == Report([], [], []) && disk.files == old(disk.files)
    ensures |found| <= snap.limits.maxFiles + |snap.roots|
    ensures var less := (a: Path, b: Path) => PathLess(a, b);
            Sorted(report.restored, less) && Sorted(report.deleted, less)
  {
    hide *;
    ghost var start, first := disk.files, |disk.history|;
    var restored, failed := WriteBack(disk, snap);
    ghost var mid := disk.files;
    AfterWriting(start, mid, snap, restored, failed);
    SoundParts(snap);
    var paths := CurrentTracked(disk, snap.roots, snap.limits);
    found := Elements(paths);
    FoundPaths(mid, snap, paths);
    var deleted, refused := Sweep(disk, snap, paths, start, first);
    Reported(start, mid, disk.files, snap, restored, failed, paths, deleted, refused);
    SortedReport(start, disk.files, snap, found, Report(restored, deleted, failed + refused));
    FoundCount(paths);
    var less := (a: Path, b: Path) => PathLess(a, b);
    report := Report(Sort(restored, less), Sort(deleted, less), failed + refused);
    if disk.faults == old(disk.faults) {
      Concluded(start, mid, disk.files, snap, restored, paths, deleted);
    }
  }

  lemma {:induction false} Concluded(start: Files, mid: Files, now: Files, snap: Snapshot, restored: seq<Path>,
                                     paths: seq<Path>, deleted: seq<Path>)
    requires Sound(snap) && WrittenBack(start, mid, snap, snap.files.Keys, restored, [])
    requires Swept(mid, now, snap, paths, |paths|, deleted, [])
    requires Elements(paths) <= VisibleFiles(mid, snap.roots, snap.limits)
    requires var seen := VisibleFiles(mid, snap.roots, snap.limits);
             && (Elements(paths) == seen <==> WithinQuota(seen, snap.roots, snap.limits))
             && EachRoot(seen, snap.roots, |snap.roots|, snap.limits, Elements(paths))
    requires AsCaptured(start, snap) ==> restored == []
    ensures Exactly(start, now, snap, Elements(paths))
    ensures var less := (a: Path, b: Path) => PathLess(a, b);
            AsCaptured(start, snap) ==> now == start && Sort(restored, less) == [] && Sort(deleted, less) == []
  {
    hide *;
    AfterWriting(start, mid, snap, restored, []);
    var before := VisibleFiles(start, snap.roots, snap.limits);
    if AsCaptured(start, snap) {
      Unwritten(start, mid, snap);
      NothingToDo(mid, now, snap, paths, deleted);
      NothingSorted((a: Path, b: Path) => PathLess(a, b));
    }
    assert VisibleFiles(mid, snap.roots, snap.limits) == before + snap.files.Keys;
    AllRestored(start, mid, now, snap, restored, paths, deleted);
    ExactlyIs(start, now, snap, Elements(paths));
  }

  lemma {:induction false} ExactlyIs(start: Files, now: Files, snap: Snapshot, found: set<Path>)
    ensures var before := VisibleFiles(start, snap.roots, snap.limits);
            Exactly(start, now, snap, found) <==>
            && (found == before + snap.files.Keys <==>
                WithinQuota(before + snap.files.Keys, snap.roots, snap.limits))
            && EachRoot(before + snap.files.Keys, snap.roots, |snap.roots|, snap.limits, found)
            && (AsCaptured(now, snap) <==> before - snap.files.Keys <= found)
  {
  }

  lemma {:induction false} NothingSorted(less: (Path, Path) -> bool)
    ensures Sort([], less) == []
  {
  }

  lemma {:induction false} Unwritten(start: Files, mid: Files, snap: Snapshot)
    requires WrittenBack(start, mid, snap, snap.files.Keys, [], [])
    ensures mid == start
  {
  }

  // ----- what changed -----

  datatype DocState = Absent | Present(revision: string)

  /** The digest of a document, taken to be injective. */
  ghost predicate Faithful(revision: Bytes -> string) {
    forall a, b :: revision(a) == revision(b) ==> a == b
  }

  function StateOf(files: Files, p: Path, revision: Bytes -> string): DocState {
    if p in files then Present(revision(files[p])) else Absent
  }

  ghost predicate Differs(files: Files, snap: Snapshot, p: Path) {
    if p in snap.files then !Same(files, snap.files, p) else p in files && Visible(snap.roots, snap.limits, p)
  }

  /** Every change listed is one, and is listed with the present state of its path. */
  ghost predicate TrueChanges(files: Files, snap: Snapshot, revision: Bytes -> string, out: seq<(Path, DocState)>) {
    forall c | c in out :: Differs(files, snap, c.0) && c.1 == StateOf(files, c.0, revision)
  }

  ghost predicate Lists(out: seq<(Path, DocState)>, p: Path) {
    exists c :: c in out && c.0 == p
  }

  /** Compare the captured paths with the disk. */
  method ChangedCaptured(disk: Disk, snap: Snapshot, revision: Bytes -> string) returns (out: seq<(Path, DocState)>)
    requires Faithful(revision)
    modifies disk`faults
    ensures disk.faults >= old(disk.faults) && TrueChanges(disk.files, snap, revision, out)
    ensures disk.faults == old(disk.faults) ==> Covers(disk.files, snap, snap.files.Keys, out)
  {
    hide Faithful, TrueChanges, Differs, Lists, Same, Covers;
    out := [];
    ghost var files := disk.files;
    NoChanges(files, snap, revision);
    var rest := snap.files.Keys;
    assert snap.files.Keys - rest == {};
    while rest != {}
      invariant rest <= snap.files.Keys && disk.faults >= old(disk.faults)
      invariant TrueChanges(files, snap, revision, out)
      invariant disk.faults == old(disk.faults) ==> Covers(files, snap, snap.files.Keys - rest, out)
      decreases |rest|
    {
      var p :| p in rest;
      ghost var done := snap.files.Keys - rest;
      rest := rest - {p};
      var reading := disk.Read(p);
      var before := snap.files[p];
      if reading.Unreadable? {
        continue;
      }
      var now := if reading.Content? then Present(revision(reading.bytes)) else Absent;
      ghost var was := out;
      if now != Present(revision(before)) {
        out := out + [(p, now)];
      }
      OneCompared(files, snap, revision, was, p, now, out);
      if disk.faults == old(disk.faults) {
        OneMoreCovered(files, snap, done, was, p, out);
        assert done + {p} == snap.files.Keys - rest;
      }
    }
    assert snap.files.Keys - rest == snap.files.Keys;
  }

  /** Add what the rescan found and the snapshot does not hold. */
  method ChangedCreated(
      disk: Disk, snap: Snapshot, revision: Bytes -> string, paths: seq<Path>, captured: seq<(Path, DocState)>)
    returns (out: seq<(Path, DocState)>)
    requires forall p | p in paths :: p in disk.files && Visible(snap.roots, snap.limits, p)
    requires TrueChanges(disk.files, snap, revision, captured)
    modifies disk`faults
    ensures disk.faults >= old(disk.faults) && TrueChanges(disk.files, snap, revision, out)
    ensures disk.faults == old(disk.faults) && Covers(disk.files, snap, snap.files.Keys, captured) ==>
              Covers(disk.files, snap, snap.files.Keys + Elements(paths), out)
  {
    hide Visible, TrueChanges, Differs, Lists, Same, Covers;
    out := captured;
    ghost var files := disk.files;
    assert snap.files.Keys == snap.files.Keys + Elements(paths[..0]);
    for n := 0 to |paths|
      invariant disk.faults >= old(disk.faults)
      invariant TrueChanges(files, snap, revision, out)
      invariant disk.faults == old(disk.faults) && Covers(files, snap, snap.files.Keys, captured) ==>
                  Covers(files, snap, snap.files.Keys + Elements(paths[..n]), out)
    {
      TakeOneMore(paths, n);
      assert Elements(paths[..n + 1]) == Elements(paths[..n]) + {paths[n]};
      var p := paths[n];
      ghost var was := out;
      if p !in snap.files {
        var reading := disk.Read(p);
        if reading.Unreadable? {
          continue;
        }
        var now := if reading.Content? then Present(revision(reading.bytes)) else Absent;
        out := out + [(p, now)];
        OneCreated(files, snap, revision, was, p, now, out);
      }
      if disk.faults == old(disk.faults) && Covers(files, snap, snap.files.Keys, captured) {
        CapturedOrListed(files, snap, Elements(paths[..n]), was, p, out);
      }
    }
    assert paths[..|paths|] == paths;
  }

  method Changed(disk: Disk, snap: Snapshot, revision: Bytes -> string) returns (out: seq<(Path, DocState)>)
    requires disk.Valid() && Sound(snap) && Faithful(revision)
    modifies disk`faults
    ensures disk.faults >= old(disk.faults) && TrueChanges(disk.files, snap, revision, out) && InPathOrder(out)
    ensures forall c | c in out ::
              c.1 == if c.0 in disk.files then Present(revision(disk.files[c.0])) else Absent
    ensures disk.faults == old(disk.faults)
            && WithinQuota(VisibleFiles(disk.files, snap.roots, snap.limits), snap.roots, snap.limits) ==>
              (forall p | Differs(disk.files, snap, p) ::
                  Lists(out, p)) && (out == [] <==> AsCaptured(disk.files, snap))
  {
    hide *;
    ghost var files := disk.files;
    out := ChangedCaptured(disk, snap, revision);
    SoundParts(snap);
    var paths := CurrentTracked(disk, snap.roots, snap.limits);
    FoundPaths(files, snap, paths);
    out := ChangedCreated(disk, snap, revision, paths, out);
    SortedChanges(files, snap, revision, out);
    if disk.faults == old(disk.faults) && Elements(paths) == VisibleFiles(files, snap.roots, snap.limits) {
      AllCovered(files, snap, revision, out);
    }
    out := Sort(out, (a: (Path, DocState), b: (Path, DocState)) => PathLess(a.0, b.0));
    StatesTold(files, snap, revision, out);
  }

  /** Every differing path of `part` is listed. */
  ghost predicate Covers(files: Files, snap: Snapshot, part: set<Path>, out: seq<(Path, DocState)>) {
    forall p | p in part && Differs(files, snap, p) :: Lists(out, p)
  }

  lemma {:induction false} NoChanges(files: Files, snap: Snapshot, revision: Bytes -> string)
    ensures TrueChanges(files, snap, revision, []) && Covers(files, snap, {}, [])
  {
  }

  lemma {:induction false} OneCompared(
      files: Files, snap: Snapshot, revision: Bytes -> string, was: seq<(Path, DocState)>, p: Path, now: DocState,
      out: seq<(Path, DocState)>)
    requires TrueChanges(files, snap, revision, was) && p in snap.files && Faithful(revision)
    requires now == StateOf(files, p, revision)
    requires out == if now != Present(revision(snap.files[p])) then was + [(p, now)] else was
    ensures TrueChanges(files, snap, revision, out)
    ensures Lists(out, p) || !Differs(files, snap, p)
    ensures was <= out
  {
    assert now != Present(revision(snap.files[p])) <==> Differs(files, snap, p);
    if Differs(files, snap, p) {
      assert (p, now) in out;
    }
  }

  lemma {:induction false} OneCreated(
      files: Files, snap: Snapshot, revision: Bytes -> string, was: seq<(Path, DocState)>, p: Path, now: DocState,
      out: seq<(Path, DocState)>)
    requires TrueChanges(files, snap, revision, was) && p !in snap.files && p in files &&
              Visible(snap.roots, snap.limits, p)
    requires now == StateOf(files, p, revision) && out == was + [(p, now)]
    ensures TrueChanges(files, snap, revision, out) && Lists(out, p)
  {
    assert (p, now) in out;
  }

  lemma {:induction false} OneMoreCovered(
      files: Files, snap: Snapshot, part: set<Path>, was: seq<(Path, DocState)>, p: Path,
      out: seq<(Path, DocState)>)
    requires Covers(files, snap, part, was) && was <= out && (Lists(out, p) || !Differs(files, snap, p))
    ensures Covers(files, snap, part + {p}, out)
  {
    forall q | Lists(was, q)
      ensures Lists(out, q)
    {
      var c :| c in was && c.0 == q;
      assert c in out;
    }
  }

  lemma {:induction false} CapturedOrListed(
      files: Files, snap: Snapshot, scanned: set<Path>, was: seq<(Path, DocState)>, p: Path,
      out: seq<(Path, DocState)>)
    requires Covers(files, snap, snap.files.Keys + scanned, was) && was <= out
    requires p in snap.files || Lists(out, p)
    ensures Covers(files, snap, snap.files.Keys + (scanned + {p}), out)
  {
    if p in snap.files {
      assert out == was + out[|was|..];
      forall q | Lists(was, q)
        ensures Lists(out, q)
      {
        var c :| c in was && c.0 == q;
        assert c in out;
      }
      assert snap.files.Keys + (scanned + {p}) == snap.files.Keys + scanned;
    } else {
      OneMoreCovered(files, snap, snap.files.Keys + scanned, was, p, out);
      assert snap.files.Keys + scanned + {p} == snap.files.Keys + (scanned + {p});
    }
  }

  lemma {:induction false} SortedChanges(
      files: Files, snap: Snapshot, revision: Bytes -> string, listed: seq<(Path, DocState)>)
    requires TrueChanges(files, snap, revision, listed)
    ensures var out := Sort(listed, (a: (Path, DocState), b: (Path, DocState)) => PathLess(a.0, b.0));
            && TrueChanges(files, snap, revision, out) && InPathOrder(out)
            && (forall p :: Lists(out, p) <==> Lists(listed, p)) && |out| == |listed|
  {
    var less := (a: (Path, DocState), b: (Path, DocState)) => PathLess(a.0, b.0);
    SameMembers(listed, less);
    SortKeeps(listed, less);
    FirstOrder();
    SortSorts(listed, less);
    PathsAscend(Sort(listed, less));
  }

  /** No path is listed before a lesser one. */
  ghost predicate InPathOrder(out: seq<(Path, DocState)>) {
    forall i, j | 0 <= i < j < |out| :: PathLess(out[i].0, out[j].0) || out[i].0 == out[j].0
  }

  lemma {:induction false} FirstOrder()
    ensures StrictOrder((a: (Path, DocState), b: (Path, DocState)) => PathLess(a.0, b.0))
  {
    forall a: Path, b: Path
      ensures PathLess(a, b) ==> !PathLess(b, a)
    {
      PathTotal(a, b);
    }
    forall a: Path, b: Path, c: Path | !PathLess(b, a) && !PathLess(c, b)
      ensures !PathLess(c, a)
    {
      PathOrder();
      var less := (a: Path, b: Path) => PathLess(a, b);
      assert !less(b, a) && !less(c, b);
    }
  }

  lemma {:induction false} PathsAscend(out: seq<(Path, DocState)>)
    requires Sorted(out, (a: (Path, DocState), b: (Path, DocState)) => PathLess(a.0, b.0))
    ensures InPathOrder(out)
  {
    hide PathLess;
    forall i, j | 0 <= i < j < |out| ensures PathLess(out[i].0, out[j].0) || out[i].0 == out[j].0 {
      assert !PathLess(out[j].0, out[i].0);
      PathTotal(out[i].0, out[j].0);
    }
  }

  lemma {:induction false} StatesTold(
      files: Files, snap: Snapshot, revision: Bytes -> string, out: seq<(Path, DocState)>)
    requires TrueChanges(files, snap, revision, out)
    ensures forall c | c in out :: c.1 == if c.0 in files then Present(revision(files[c.0])) else Absent
  {
  }

  lemma {:induction false} AllCovered(
      files: Files, snap: Snapshot, revision: Bytes -> string, out: seq<(Path, DocState)>)
    requires Sound(snap) && TrueChanges(files, snap, revision, out)
    requires Covers(files, snap, snap.files.Keys + VisibleFiles(files, snap.roots, snap.limits), out)
    ensures forall p | Differs(files, snap, p) :: Lists(out, p)
    ensures out == [] <==> AsCaptured(files, snap)
  {
    hide Visible, Apart;
    SameEverywhere(files, snap);
    if out == [] {
      assert forall p :: !Lists(out, p);
    } else {
      assert out[0] in out;
    }
  }

  /** A state is the captured one when no path differs, and only then. */
  lemma {:induction false} SameEverywhere(files: Files, snap: Snapshot)
    requires Sound(snap)
    ensures AsCaptured(files, snap) <==> forall p :: !Differs(files, snap, p)
  {
    hide Visible, Apart;
    if forall p :: !Differs(files, snap, p) {
      forall p
        ensures p in VisibleFiles(files, snap.roots, snap.limits) <==> p in snap.files
      {
        assert !Differs(files, snap, p);
      }
      forall p | p in snap.files
        ensures Same(files, snap.files, p)
      {
        assert !Differs(files, snap, p);
      }
    } else {
      var p :| Differs(files, snap, p);
      assert p in snap.files || p in VisibleFiles(files, snap.roots, snap.limits);
    }
  }

  // ----- the rollback theorem -----

  /** Capture, then any edits, then a restore that brings the captured state back: every path a
      walk over the roots can reach is exactly as it was, and nothing but what differed was touched. */
  lemma {:induction false} RollbackIsExact(files0: Files, roots0: seq<Path>, limits: Limits, snap: Snapshot,
                                           start: Files, now: Files, found: set<Path>, report: Report)
    requires Captures(files0, roots0, limits, snap)
    requires Tells(start, now, snap, found, report) && AsCaptured(now, snap)
    ensures forall p | Visible(snap.roots, limits, p) :: Same(now, files0, p)
    ensures forall p | !Visible(snap.roots, limits, p) && !Temporary(p) && p !in report.deleted :: Same(now, start, p)
    ensures forall p | p in start && Visible(snap.roots, limits, p) && p !in files0 :: p in report.deleted
    ensures forall p | p in report.restored :: p in files0 && Visible(snap.roots, limits, p)
  {
    hide Visible, Normalised, OverLimit, Temporary;
    forall p | Visible(snap.roots, limits, p)
      ensures Same(now, files0, p)
    {
      assert p in files0 <==> p in snap.files;
      assert p in now <==> p in snap.files;
    }
    forall p | p in start && Visible(snap.roots, limits, p) && p !in files0
      ensures p in report.deleted
    {
      VisibleIsTracked(snap.roots, limits, p);
      assert Same(now, files0, p);
    }
    forall p | !Visible(snap.roots, limits, p) && !Temporary(p) && p !in report.deleted
      ensures Same(now, start, p)
    {
      assert p !in snap.files;
    }
  }

  /** A file that survives without a word in the report: visible, not captured, in no list. */
  ghost predicate Survives(now: Files, snap: Snapshot, report: Report, p: Path) {
    p !in snap.files && p in VisibleFiles(now, snap.roots, snap.limits) && !Mentioned(report, p)
  }

  /** The rescan gives up at the file limit without saying so: the files that survive unmentioned are
      exactly those created since that it did not find. */
  lemma {:induction false} SurvivorsExactly(
      start: Files, now: Files, snap: Snapshot, found: set<Path>, report: Report, p: Path)
    requires Sound(snap) && Tells(start, now, snap, found, report)
    ensures Survives(now, snap, report, p) <==>
            p in VisibleFiles(start, snap.roots, snap.limits) && p !in snap.files && p !in found
  {
    hide Visible, Apart, Temporary, NoRepeats;
    if Visible(snap.roots, snap.limits, p) {
      VisibleIsTracked(snap.roots, snap.limits, p);
    }
  }

  /** What can be told before the call: the captured state comes back if each root that holds a file
      created since has no more files than it is allowed, and does not if some root has more and none of
      them is captured.  Between the two the order of listing decides. */
  lemma {:induction false} AllowanceDecides(start: Files, now: Files, snap: Snapshot, found: set<Path>)
    requires Exactly(start, now, snap, found)
    ensures var before, depth := VisibleFiles(start, snap.roots, snap.limits), snap.limits.maxDepth;
            var created, all := before - snap.files.Keys, before + snap.files.Keys;
            && ((forall m | 0 <= m < |snap.roots| && Share(created, snap.roots[m], depth) != {} ::
                   Allowed(all, snap.roots, m, snap.limits)) ==> AsCaptured(now, snap))
            && ((exists m | 0 <= m < |snap.roots| && Share(snap.files.Keys, snap.roots[m], depth) == {} ::
                   !Allowed(all, snap.roots, m, snap.limits)) ==> !AsCaptured(now, snap))
  {
    hide Allowed, Reaches, AsCaptured;
    var before, depth := VisibleFiles(start, snap.roots, snap.limits), snap.limits.maxDepth;
    var created, all := before - snap.files.Keys, before + snap.files.Keys;
    if forall m | 0 <= m < |snap.roots| && Share(created, snap.roots[m], depth) != {} ::
         Allowed(all, snap.roots, m, snap.limits) {
      forall p | p in created
        ensures p in found
      {
        var m :| 0 <= m < |snap.roots| && Reaches(snap.roots[m], 0, depth, p);
        assert p in Share(created, snap.roots[m], depth) && p in Share(all, snap.roots[m], depth);
      }
    }
    if m :| 0 <= m < |snap.roots| && Share(snap.files.Keys, snap.roots[m], depth) == {}
            && !Allowed(all, snap.roots, m, snap.limits) {
      var root := snap.roots[m];
      var p :| p in Share(all, root, depth) && p !in found;
      assert p in Share(snap.files.Keys, root, depth) <==> p in snap.files.Keys;
    }
  }

  /** With enough new files under the roots, some survive. */
  lemma {:induction false} FileLimitHidesSurvivors(
      start: Files, now: Files, snap: Snapshot, found: set<Path>, report: Report)
    requires Sound(snap) && Tells(start, now, snap, found, report)
    requires |found| <= snap.limits.maxFiles + |snap.roots|
    requires |VisibleFiles(start, snap.roots, snap.limits) - snap.files.Keys| > snap.limits.maxFiles + |snap.roots|
    ensures exists p :: Survives(now, snap, report, p)
  {
    hide VisibleFiles, Sound, Tells, Survives;
    var created := VisibleFiles(start, snap.roots, snap.limits) - snap.files.Keys;
    assert |created| == |created * found| + |created - found|;
    assert |found| == |created * found| + |found - created|;
    assert created - found != {};
    var p :| p in created - found;
    SurvivorsExactly(start, now, snap, found, report, p);
  }

  // ----- a restore that leaves a file behind -----

  const NEW_ROOT: Path := ["project"]
  const NEW_FILES: Files := map[["project", "a.net"] := [], ["project", "b.net"] := []]
  const NO_FILES: Snapshot := Snapshot([NEW_ROOT], map[], Limits(0, 0, 1))

  /** Two files created under the one root, where no file was and the limit allows none. */
  method OneFileSurvives(disk: Disk) returns (report: Report)
    requires disk.Valid() && disk.files == NEW_FILES
    modifies disk
    ensures disk.faults == old(disk.faults) ==>
              !AsCaptured(disk.files, NO_FILES) && report.failed == [] &&
              exists p :: Survives(disk.files, NO_FILES, report, p)
  {
    hide *;
    NothingCaptured();
    ghost var found;
    ghost var start := disk.files;
    report, found := Restore(disk, NO_FILES);
    if disk.faults == old(disk.faults) {
      TwoFilesTooMany();
      ExactlyIs(start, disk.files, NO_FILES, found);
      ghost var seen := VisibleFiles(start, NO_FILES.roots, NO_FILES.limits);
      assert seen + NO_FILES.files.Keys == seen && seen - NO_FILES.files.Keys == seen;
      assert seen <= found ==> found == seen;
      ghost var p :| p in seen && p !in found;
      SurvivorsExactly(start, disk.files, NO_FILES, found, report, p);
    }
  }

  lemma {:induction false} NothingCaptured()
    ensures Sound(NO_FILES) && NO_FILES.files == map[]
  {
  }

  lemma {:induction false} TrackedNet(name: string)
    requires name == "a.net" || name == "b.net"
    ensures IsTrackedName(name)
  {
    assert name[1..] == ".net" && name[1..][1..] == "net";
    SplitPrepend("net", "", '.');
    assert "net" + "" == "net";
    SplitPrepend(name[..1], ".net", '.');
    assert name[..1] + ".net" == name;
    assert Split(".net", '.') == [""] + Split("net", '.');
  }

  lemma {:induction false} TwoFilesTooMany()
    ensures var seen := VisibleFiles(NEW_FILES, NO_FILES.roots, NO_FILES.limits);
            |seen| == 2 && !WithinQuota(seen, NO_FILES.roots, NO_FILES.limits)
  {
    hide IsTrackedName;
    var a, b := ["project", "a.net"], ["project", "b.net"];
    assert a[1][0] != b[1][0];
    TrackedNet("a.net");
    TrackedNet("b.net");
    assert a[..1] == b[..1] == NEW_ROOT;
    assert Reaches(NEW_ROOT, 0, 1, a) && Reaches(NEW_ROOT, 0, 1, b);
    assert NO_FILES.roots[0] == NEW_ROOT;
    var seen := VisibleFiles(NEW_FILES, NO_FILES.roots, NO_FILES.limits);
    assert seen == {a, b};
    assert Share(seen, NEW_ROOT, 1) == {a, b};
    assert !Allowed(seen, NO_FILES.roots, 0, NO_FILES.limits);
  }
}
