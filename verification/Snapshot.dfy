/** Capturing the tracked files under some roots, and scanning those roots again later. */
module Snapshots {
  import opened Wrappers
  import opened Text
  import opened Disks
  import opened Sorting

  datatype Limits = Limits(maxFiles: nat, maxBytes: nat, maxDepth: nat)

  const TRACKED_EXTENSIONS: set<string> :=
    {"kicad_sch", "kicad_pcb", "kicad_pro", "kicad_prl", "kicad_sym", "kicad_mod", "kicad_dru", "kicad_wks", "net"}

  const SKIP_DIRS: set<string> := {".git", "target", "node_modules", "__pycache__"}

  // ----- which paths a snapshot is about -----

  /** Whether a file name ends in a tracked extension; a name that only starts with a dot has none. */
  predicate IsTrackedName(name: string) {
    var parts := Split(name, '.');
    |parts| >= 2 && !(|parts| == 2 && parts[0] == "") && parts[|parts| - 1] in TRACKED_EXTENSIONS
  }

  predicate Skipped(name: string) {
    name in SKIP_DIRS || (|name| >= 8 && name[|name| - 8..] == "-backups")
  }

  /** The walk from `dir`, itself `depth` levels below its root, comes to the file `p`. */
  predicate Reaches(dir: Path, depth: nat, maxDepth: nat, p: Path) {
    && Within(dir, p)
    && IsTrackedName(p[|p| - 1])
    && depth + (|p| - 1 - |dir|) <= maxDepth
    && forall i | |dir| <= i < |p| - 1 :: !Skipped(p[i])
  }

  ghost predicate Visible(roots: seq<Path>, limits: Limits, p: Path) {
    exists i | 0 <= i < |roots| :: Reaches(roots[i], 0, limits.maxDepth, p)
  }

  /** Every tracked file the walk over `roots` comes to. */
  ghost function VisibleFiles(files: Files, roots: seq<Path>, limits: Limits): set<Path> {
    set p | p in files && Visible(roots, limits, p)
  }

  ghost predicate TrackedExtension(ext: string) {
    || ext == "kicad_sch" || ext == "kicad_pcb" || ext == "kicad_pro" || ext == "kicad_prl" || ext == "kicad_sym"
    || ext == "kicad_mod" || ext == "kicad_dru" || ext == "kicad_wks" || ext == "net"
  }

  /** The extension is what follows the last dot, and something must stand before that dot. */
  ghost predicate IsDocument(name: string) {
    exists stem, ext :: stem != "" && '.' !in ext && TrackedExtension(ext) && name == stem + "." + ext
  }

  lemma {:induction false} SplitWhole(s: string, sep: char)
    requires sep !in s
    ensures Split(s, sep) == [s]
  {
    SplitPrepend(s, "", sep);
    assert s + "" == s;
  }

  lemma {:induction false} SplitStem(stem: string, ext: string)
    requires '.' !in ext
    ensures var parts := Split(stem + "." + ext, '.');
            && |parts| >= 2 && parts[|parts| - 1] == ext
            && (|parts| == 2 && parts[0] == "" <==> stem == "")
  {
    var name, parts := stem + "." + ext, Split(stem + "." + ext, '.');
    SplitLast(stem, ext, '.');
    if stem == "" {
      assert name == "." + ext && name[1..] == ext;
      SplitWhole(ext, '.');
    } else {
      JoinOfSplit(name, '.');
      assert |parts| == 2 ==> name == parts[0] + "." + ext;
    }
  }

  /** A name whose last dot is between `stem` and `ext` is tracked by its extension alone, and not
      at all when nothing stands before the dot. */
  lemma {:induction false} TrackedByExtension(stem: string, ext: string)
    requires '.' !in ext
    ensures IsTrackedName(stem + "." + ext) <==> stem != "" && TrackedExtension(ext)
  {
    SplitStem(stem, ext);
  }

  lemma {:induction false} LastDot(name: string) returns (stem: string, ext: string)
    requires '.' in name
    ensures name == stem + "." + ext && '.' !in ext
  {
    var n := |name| - 1;
    if name[n] == '.' {
      stem, ext := name[..n], "";
    } else {
      assert name == name[..n] + [name[n]];
      stem, ext := LastDot(name[..n]);
      ext := ext + [name[n]];
    }
  }

  /** Tracked names are the documents' names: a stem, a dot and one of the nine extensions. */
  lemma {:induction false} TrackedExactly(name: string)
    ensures IsTrackedName(name) <==> IsDocument(name)
  {
    if '.' in name {
      var stem, ext := LastDot(name);
      TrackedByExtension(stem, ext);
    } else {
      SplitWhole(name, '.');
    }
    if IsDocument(name) {
      var stem, ext :| stem != "" && '.' !in ext && TrackedExtension(ext) && name == stem + "." + ext;
      TrackedByExtension(stem, ext);
    }
  }

  /** Directories no walk enters: version control, build output, packages, caches, backups. */
  ghost predicate PassedOver(dir: string) {
    || dir == ".git" || dir == "target" || dir == "node_modules" || dir == "__pycache__"
    || exists front :: dir == front + "-backups"
  }

  lemma {:induction false} SkippedExactly(dir: string)
    ensures Skipped(dir) <==> PassedOver(dir)
  {
    if |dir| >= 8 && dir[|dir| - 8..] == "-backups" {
      assert dir == dir[..|dir| - 8] + "-backups";
    }
  }

  /** `p` is a document below `root`, at most `maxDepth` directories down, none of them passed over. */
  ghost predicate DocumentUnder(root: Path, maxDepth: nat, p: Path) {
    exists dirs: seq<string>, name ::
      && p == root + dirs + [name] && |dirs| <= maxDepth && IsDocument(name)
      && forall i | 0 <= i < |dirs| :: !PassedOver(dirs[i])
  }

  lemma {:induction false} ReachesExactly(root: Path, maxDepth: nat, p: Path)
    ensures Reaches(root, 0, maxDepth, p) <==> DocumentUnder(root, maxDepth, p)
  {
    hide Skipped, PassedOver, IsTrackedName, IsDocument;
    if Within(root, p) {
      var n := |p| - 1;
      var dirs := p[|root|..n];
      assert p == root + dirs + [p[n]];
      TrackedExactly(p[n]);
      forall i | 0 <= i < |dirs| ensures Skipped(p[|root| + i]) <==> PassedOver(dirs[i]) {
        SkippedExactly(dirs[i]);
      }
      if Reaches(root, 0, maxDepth, p) {
        assert forall i | 0 <= i < |dirs| :: !PassedOver(dirs[i]);
      }
    }
    if DocumentUnder(root, maxDepth, p) {
      var dirs, name :| p == root + dirs + [name] && |dirs| <= maxDepth && IsDocument(name) &&
          forall i | 0 <= i < |dirs| :: !PassedOver(dirs[i]);
      assert p[..|root|] == root && p[|root|..|p| - 1] == dirs;
      TrackedExactly(name);
      forall i | |root| <= i < |p| - 1 ensures !Skipped(p[i]) {
        assert p[i] == dirs[i - |root|];
        SkippedExactly(p[i]);
      }
    }
  }

  ghost predicate Apart(roots: seq<Path>) {
    forall i, j | 0 <= i < |roots| && 0 <= j < |roots| && i != j :: !(roots[i] <= roots[j])
  }

  // ----- roots -----

  /** Component by component is a total order on paths. */
  lemma {:induction false} PathOrder()
    ensures StrictOrder((a: Path, b: Path) => PathLess(a, b))
  {
    forall a: Path, b: Path
      ensures PathLess(a, b) ==> !PathLess(b, a)
    {
      PathTotal(a, b);
    }
    forall a: Path, b: Path, c: Path | !PathLess(b, a) && !PathLess(c, b)
      ensures !PathLess(c, a)
    {
      PathTotal(a, b);
      PathTotal(b, c);
      PathTotal(a, c);
      if a != b && b != c {
        PathTransitive(a, b, c);
      }
    }
  }

  /** Roots kept so far, once `root` has been considered. */
  function KeepRoot(kept: seq<Path>, root: Path): seq<Path> {
    if exists i | 0 <= i < |kept| :: kept[i] <= root then kept else Outside(kept, root) + [root]
  }

  /** The kept roots that do not lie inside `root`. */
  function Outside(kept: seq<Path>, root: Path): seq<Path> {
    if kept == [] then []
    else (if root <= kept[0] then [] else [kept[0]]) + Outside(kept[1..], root)
  }

  function KeptRoots(roots: seq<Path>): seq<Path> {
    if roots == [] then [] else KeepRoot(KeptRoots(roots[..|roots| - 1]), roots[|roots| - 1])
  }

  function Normalised(roots: seq<Path>): seq<Path> {
    Sort(KeptRoots(roots), (a: Path, b: Path) => PathLess(a, b))
  }

  method NormaliseRoots(roots: seq<Path>) returns (unique: seq<Path>)
    ensures unique == Normalised(roots)
  {
    unique := [];
    for i := 0 to |roots|
      invariant unique == KeptRoots(roots[..i])
    {
      TakeOneMore(roots, i);
      var root := roots[i];
      assert (roots[..i] + [root])[..i] == roots[..i];
      if exists k | 0 <= k < |unique| :: unique[k] <= root {
        continue;
      }
      unique := Outside(unique, root);
      unique := unique + [root];
    }
    assert roots[..|roots|] == roots;
    unique := Sort(unique, (a: Path, b: Path) => PathLess(a, b));
  }

  lemma {:induction false} OutsideMembers(kept: seq<Path>, root: Path)
    ensures forall k :: k in Outside(kept, root) <==> k in kept && !(root <= k)
    ensures NoRepeats(kept) ==> NoRepeats(Outside(kept, root))
  {
    if kept != [] {
      OutsideMembers(kept[1..], root);
      if NoRepeats(kept) {
        assert NoRepeats(kept[1..]);
        assert forall j | 0 < j < |kept| :: kept[j] != kept[0];
        assert kept[0] !in kept[1..];
      }
    }
  }

  ghost predicate KeptWell(roots: seq<Path>, kept: seq<Path>) {
    && NoRepeats(kept)
    && (forall a, b | a in kept && b in kept && a != b :: !(a <= b))
    && (forall k | k in kept :: k in roots)
    && (forall r | r in roots :: exists k | k in kept :: k <= r)
  }

  lemma {:induction false} KeepRootWell(before: seq<Path>, kept: seq<Path>, root: Path)
    requires KeptWell(before, kept)
    ensures KeptWell(before + [root], KeepRoot(kept, root))
  {
    var roots, next := before + [root], KeepRoot(kept, root);
    assert forall r | r in roots :: r == root || r in before;
    if exists i | 0 <= i < |kept| :: kept[i] <= root {
      var i :| 0 <= i < |kept| && kept[i] <= root;
      assert kept[i] in kept;
    } else {
      OutsideMembers(kept, root);
      assert forall k | k in kept :: !(k <= root);
      assert root !in Outside(kept, root);
      assert root in next;
      forall r | r in roots
        ensures exists k | k in next :: k <= r
      {
        CoveredStill(before, kept, root, r);
      }
    }
  }

  lemma {:induction false} CoveredStill(before: seq<Path>, kept: seq<Path>, root: Path, r: Path)
    requires KeptWell(before, kept) && (r == root || r in before)
    ensures exists k | k in Outside(kept, root) + [root] :: k <= r
  {
    OutsideMembers(kept, root);
    var next := Outside(kept, root) + [root];
    assert root in next;
    if r != root {
      var k :| k in kept && k <= r;
      assert root <= k || k in next;
    }
  }

  lemma {:induction false} KeptRootsWell(roots: seq<Path>)
    ensures KeptWell(roots, KeptRoots(roots))
  {
    if roots != [] {
      var before := roots[..|roots| - 1];
      KeptRootsWell(before);
      KeepRootWell(before, KeptRoots(before), roots[|roots| - 1]);
      assert roots == before + [roots[|roots| - 1]];
    }
  }

  /** The roots a snapshot keeps: some of the given ones, none inside another, and each given root
      inside one of them. */
  lemma {:induction false} NormalisedWell(roots: seq<Path>)
    ensures KeptWell(roots, Normalised(roots)) && Apart(Normalised(roots))
  {
    var less := (a: Path, b: Path) => PathLess(a, b);
    KeptRootsWell(roots);
    SameMembers(KeptRoots(roots), less);
    SortDistinct(KeptRoots(roots), less);
    var out := Normalised(roots);
    forall i, j | 0 <= i < |out| && 0 <= j < |out| && i != j
      ensures !(out[i] <= out[j])
    {
      assert out[i] != out[j] && out[i] in out && out[j] in out;
    }
  }

  lemma {:induction false} WithinBoth(a: Path, b: Path, p: Path)
    requires Within(a, p) && Within(b, p)
    ensures a <= b || b <= a
  {
    if |a| <= |b| {
      assert b[..|a|] == p[..|b|][..|a|] == p[..|a|];
    } else {
      assert a[..|b|] == p[..|a|][..|b|] == p[..|b|];
    }
  }

  /** Two roots apart never reach the same file, so no file is collected twice. */
  lemma {:induction false} ApartReach(a: Path, b: Path, maxDepth: nat, p: Path)
    requires Reaches(a, 0, maxDepth, p) && Reaches(b, 0, maxDepth, p)
    ensures a <= b || b <= a
  {
    WithinBoth(a, b, p);
  }

  // ----- the walk -----

  datatype Walk = Complete | TooMany | IoError

  ghost function Under(files: Files, dir: Path, depth: nat, maxDepth: nat): set<Path> {
    set p | p in files && Reaches(dir, depth, maxDepth, p)
  }

  /** What lies below `dir` through the entries in `names`. */
  ghost function Through(files: Files, dir: Path, depth: nat, maxDepth: nat, names: set<string>): set<Path> {
    set p | p in Under(files, dir, depth, maxDepth) && p[|dir|] in names
  }

  ghost function Elements(s: seq<Path>): set<Path> {
    set p | p in s
  }

  /** One entry of a directory: a subdirectory is descended into unless skipped, a file counts if tracked. */
  lemma {:induction false} EntryReach(files: Files, dir: Path, depth: nat, maxDepth: nat, name: string)
    requires Tree(files) && depth <= maxDepth && name in Names(files, dir)
    ensures Through(files, dir, depth, maxDepth, {name}) ==
            if IsDir(files, dir + [name]) then
              (if Skipped(name) then {} else Under(files, dir + [name], depth + 1, maxDepth))
            else if IsTrackedName(name) then {dir + [name]} else {}
    ensures !IsDir(files, dir + [name]) ==> dir + [name] in files
  {
    var child := dir + [name];
    var here := Through(files, dir, depth, maxDepth, {name});
    forall p | p in files && Within(dir, p) && p[|dir|] == name
      ensures p == child || Within(child, p)
    {
      assert p[..|dir| + 1] == child;
    }
    forall p | Within(child, p)
      ensures Within(dir, p) && p[|dir|] == name
    {
      assert p[..|dir|] == p[..|child|][..|dir|] == dir;
      assert p[|dir|] == p[..|child|][|dir|];
    }
    if IsDir(files, child) {
      assert child !in files;
      forall p
        ensures p in here <==> !Skipped(name) && p in Under(files, child, depth + 1, maxDepth)
      {
        if p in files && Within(child, p) {
          assert (forall i | |dir| <= i < |p| - 1 :: !Skipped(p[i])) <==>
                 !Skipped(name) && forall i | |child| <= i < |p| - 1 :: !Skipped(p[i]);
        }
      }
    } else {
      var q :| q in files && Within(dir, q) && q[|dir|] == name;
      assert q == child;
      forall p
        ensures p in here <==> IsTrackedName(name) && p == child
      {
      }
    }
  }

  function Most(a: nat, b: nat): nat {
    if a > b then a else b
  }

  /** What a walk that grew `out0` into `out` by files from `reachable` leaves true. */
  ghost predicate Gathered(limits: Limits, out0: seq<Path>, reachable: set<Path>, walk: Walk, out: seq<Path>) {
    && out0 <= out && NoRepeats(out)
    && Elements(out) <= Elements(out0) + reachable
    && (walk.Complete? ==> Elements(out) == Elements(out0) + reachable && (|out| <= limits.maxFiles || out == out0))
    && (walk.TooMany? ==> |out| == Most(|out0|, limits.maxFiles) + 1)
    && |out| <= Most(|out0|, limits.maxFiles) + 1
  }

  ghost predicate NoneBelow(out: seq<Path>, dir: Path) {
    forall p | p in out :: !Within(dir, p)
  }

  ghost predicate ClearOf(out: seq<Path>, entry: Path) {
    forall p | p in out :: p != entry && !Within(entry, p)
  }

  /** Append every tracked file below `dir` to `out0`, stopping past the file limit. */
  method Collect(disk: Disk, dir: Path, depth: nat, limits: Limits, out0: seq<Path>)
    returns (walk: Walk, out: seq<Path>)
    requires disk.Valid() && NoRepeats(out0) && NoneBelow(out0, dir)
    modifies disk`faults
    ensures Gathered(limits, out0, Under(disk.files, dir, depth, limits.maxDepth), walk, out)
    ensures disk.faults >= old(disk.faults) && (walk.IoError? ==> disk.faults > old(disk.faults))
    decreases limits.maxDepth + 1 - depth, 1
  {
    hide Gathered, Through, Under, NoneBelow, ClearOf, NoRepeats, Names;
    out := out0;
    ghost var files := disk.files;
    GatheredNone(limits, out0, files, dir, depth);
    if depth > limits.maxDepth {
      return Complete, out;
    }
    var entries := disk.List(dir);
    if entries.None? {
      return IoError, out;
    }
    var rest := entries.value;
    ghost var done: set<string> := {};
    while rest != {}
      invariant rest + done == Names(files, dir) && rest !! done
      invariant disk.faults >= old(disk.faults)
      invariant Gathered(limits, out0, Through(files, dir, depth, limits.maxDepth, done), Complete, out)
      decreases |rest|
    {
      var name :| name in rest;
      NotYet(limits, out0, files, dir, depth, done, name, out);
      ghost var before := out;
      walk, out := Visit(disk, dir, depth, limits, name, out);
      GatherTwice(limits, out0, before, files, dir, depth, done, name, walk, out);
      if !walk.Complete? {
        return;
      }
      rest := rest - {name};
      done := done + {name};
    }
    GatheredAll(limits, out0, files, dir, depth, done, out);
    walk := Complete;
  }

  lemma {:induction false} GatheredAll(
      limits: Limits, out0: seq<Path>, files: Files, dir: Path, depth: nat, done: set<string>, out: seq<Path>)
    requires done == Names(files, dir)
    requires Gathered(limits, out0, Through(files, dir, depth, limits.maxDepth, done), Complete, out)
    ensures Gathered(limits, out0, Under(files, dir, depth, limits.maxDepth), Complete, out)
  {
    PartOf(files, dir, depth, limits.maxDepth, done);
  }

  /** One entry of a directory. */
  method Visit(disk: Disk, dir: Path, depth: nat, limits: Limits, name: string, out0: seq<Path>)
    returns (walk: Walk, out: seq<Path>)
    requires disk.Valid() && NoRepeats(out0) && depth <= limits.maxDepth && name in Names(disk.files, dir)
    requires ClearOf(out0, dir + [name])
    modifies disk`faults
    ensures Gathered(limits, out0, Through(disk.files, dir, depth, limits.maxDepth, {name}), walk, out)
    ensures disk.faults >= old(disk.faults) && (walk.IoError? ==> disk.faults > old(disk.faults))
    decreases limits.maxDepth + 1 - depth, 0
  {
    var child := dir + [name];
    out := out0;
    EntryReach(disk.files, dir, depth, limits.maxDepth, name);
    if IsDir(disk.files, child) {
      if Skipped(name) {
        return Complete, out;
      }
      walk, out := Collect(disk, child, depth + 1, limits, out);
      return;
    }
    if IsTrackedName(name) {
      out := out + [child];
      assert Elements(out) == Elements(out0) + {child};
      if |out| > limits.maxFiles {
        return TooMany, out;
      }
    }
    walk := Complete;
  }

  lemma {:induction false} GatherTwice(
      limits: Limits, out0: seq<Path>, before: seq<Path>, files: Files, dir: Path, depth: nat, done: set<string>,
      name: string, walk: Walk, out: seq<Path>)
    requires Gathered(limits, out0, Through(files, dir, depth, limits.maxDepth, done), Complete, before)
    requires Gathered(limits, before, Through(files, dir, depth, limits.maxDepth, {name}), walk, out)
    ensures Gathered(limits, out0, Through(files, dir, depth, limits.maxDepth, done + {name}), walk, out)
    ensures Gathered(limits, out0, Under(files, dir, depth, limits.maxDepth), walk, out) || walk.Complete?
  {
    var all := Through(files, dir, depth, limits.maxDepth, done + {name});
    assert all == Through(files, dir, depth, limits.maxDepth, done) +
        Through(files, dir, depth, limits.maxDepth, {name});
    PartOf(files, dir, depth, limits.maxDepth, done + {name});
  }

  lemma {:induction false} PartOf(files: Files, dir: Path, depth: nat, maxDepth: nat, names: set<string>)
    ensures Through(files, dir, depth, maxDepth, names) <= Under(files, dir, depth, maxDepth)
    ensures names == Names(files, dir) ==>
              Through(files, dir, depth, maxDepth, names) == Under(files, dir, depth, maxDepth)
  {
  }

  lemma {:induction false} BelowEntry(dir: Path, name: string, p: Path)
    requires Within(dir + [name], p)
    ensures Within(dir, p) && p[|dir|] == name
  {
    var child := dir + [name];
    assert p[..|dir|] == p[..|child|][..|dir|] == dir;
    assert p[|dir|] == p[..|child|][|dir|];
  }

  /** Nothing gathered so far lies at or below an entry not yet visited. */
  lemma {:induction false} NotYet(limits: Limits, out0: seq<Path>, files: Files, dir: Path, depth: nat,
                                  done: set<string>, name: string, out: seq<Path>)
    requires name !in done && NoneBelow(out0, dir)
    requires Gathered(limits, out0, Through(files, dir, depth, limits.maxDepth, done), Complete, out)
    ensures NoRepeats(out) && ClearOf(out, dir + [name])
  {
    forall p | Within(dir + [name], p)
      ensures Within(dir, p) && p[|dir|] == name
    {
      BelowEntry(dir, name, p);
    }
    assert Within(dir, dir + [name]) && (dir + [name])[|dir|] == name;
    assert forall p | p in out :: p in Elements(out);
  }

  lemma {:induction false} GatheredNone(limits: Limits, out0: seq<Path>, files: Files, dir: Path, depth: nat)
    requires NoRepeats(out0)
    ensures Gathered(limits, out0, Through(files, dir, depth, limits.maxDepth, {}), Complete, out0)
    ensures Gathered(limits, out0, Under(files, dir, depth, limits.maxDepth), IoError, out0)
    ensures depth > limits.maxDepth ==>
              Gathered(limits, out0, Under(files, dir, depth, limits.maxDepth), Complete, out0)
  {
    assert Through(files, dir, depth, limits.maxDepth, {}) == {};
    assert depth > limits.maxDepth ==> Under(files, dir, depth, limits.maxDepth) == {};
  }

  // ----- the walk over every root -----

  /** Files under the first `n` roots. */
  ghost function UnderRoots(files: Files, roots: seq<Path>, n: nat, maxDepth: nat): set<Path>
    requires n <= |roots|
  {
    set p | p in files && exists i | 0 <= i < n :: Reaches(roots[i], 0, maxDepth, p)
  }

  lemma {:induction false} NextRoot(files: Files, roots: seq<Path>, n: nat, maxDepth: nat)
    requires n < |roots| && Apart(roots)
    ensures UnderRoots(files, roots, n + 1, maxDepth) ==
              UnderRoots(files, roots, n, maxDepth) + Under(files, roots[n], 0, maxDepth)
    ensures forall p | p in UnderRoots(files, roots, n, maxDepth) :: !Within(roots[n], p)
  {
    forall p | p in UnderRoots(files, roots, n, maxDepth)
      ensures !Within(roots[n], p)
    {
      var i :| 0 <= i < n && Reaches(roots[i], 0, maxDepth, p);
      if Within(roots[n], p) {
        WithinBoth(roots[i], roots[n], p);
        assert false;
      }
    }
  }

  /** Files of `paths` that the walk from `root` comes to. */
  ghost function Share(paths: set<Path>, root: Path, maxDepth: nat): set<Path> {
    set p | p in paths && Reaches(root, 0, maxDepth, p)
  }

  /** Files of `paths` that the walk from one of the first `n` roots comes to. */
  ghost function Shares(paths: set<Path>, roots: seq<Path>, n: nat, maxDepth: nat): set<Path>
    requires n <= |roots|
  {
    set p | p in paths && exists i | 0 <= i < n :: Reaches(roots[i], 0, maxDepth, p)
  }

  /** A root is allowed one file, or as many as bring the total past the limit by one. */
  ghost predicate Allowed(paths: set<Path>, roots: seq<Path>, n: nat, limits: Limits)
    requires n < |roots|
  {
    var share := |Share(paths, roots[n], limits.maxDepth)|;
    share <= 1 || |Shares(paths, roots, n, limits.maxDepth)| + share <= limits.maxFiles + 1
  }

  ghost predicate WithinQuota(paths: set<Path>, roots: seq<Path>, limits: Limits) {
    forall n | 0 <= n < |roots| :: Allowed(paths, roots, n, limits)
  }

  /** Root by root: its share was found if and only if it is no more than allowed. */
  ghost predicate EachRoot(paths: set<Path>, roots: seq<Path>, n: nat, limits: Limits, found: set<Path>)
    requires n <= |roots|
  {
    forall m | 0 <= m < n :: Share(paths, roots[m], limits.maxDepth) <= found <==> Allowed(paths, roots, m, limits)
  }

  /** The rescan: a root that hits the limit, or fails, does not stop the next one.  When nothing fails
      it finds every visible file if and only if each root has no more than it is allowed, whatever
      the order directories are listed in. */
  method CurrentTracked(disk: Disk, roots: seq<Path>, limits: Limits) returns (paths: seq<Path>)
    requires disk.Valid() && Apart(roots)
    modifies disk`faults
    ensures disk.faults >= old(disk.faults) && NoRepeats(paths)
    ensures Elements(paths) <= VisibleFiles(disk.files, roots, limits)
    ensures disk.faults == old(disk.faults) ==>
              var visible := VisibleFiles(disk.files, roots, limits);
              && (Elements(paths) == visible <==> WithinQuota(visible, roots, limits))
              && EachRoot(visible, roots, |roots|, limits, Elements(paths))
    ensures |paths| <= limits.maxFiles + |roots|
  {
    hide *;
    ghost var files, maxDepth := disk.files, limits.maxDepth;
    paths := [];
    ghost var full := true;
    NoRoots(files, roots, maxDepth);
    NothingListed();
    NoRootYet(files, roots, limits);
    for n := 0 to |roots|
      invariant disk.faults >= old(disk.faults) && NoRepeats(paths)
      invariant Elements(paths) <= UnderRoots(files, roots, n, maxDepth)
      invariant full <==> Elements(paths) == UnderRoots(files, roots, n, maxDepth)
      invariant disk.faults == old(disk.faults) ==>
                  && (full <==> forall m | 0 <= m < n :: Allowed(files.Keys, roots, m, limits))
                  && EachRoot(files.Keys, roots, n, limits, Elements(paths))
                  && (full || |paths| > limits.maxFiles)
      invariant |paths| <= limits.maxFiles + n
    {
      NextRoot(files, roots, n, maxDepth);
      ghost var before := paths;
      NoneBelowRoot(files, roots, n, maxDepth, before);
      var walk;
      walk, paths := Collect(disk, roots[n], 0, limits, paths);
      RootGathered(limits, before, Under(files, roots[n], 0, maxDepth), walk, paths);
      FoundExactly(files, roots, n, limits, before, walk, paths);
      if disk.faults == old(disk.faults) {
        RootFound(files, roots, n, limits, before, walk, paths);
      }
      full := Elements(paths) == UnderRoots(files, roots, n + 1, maxDepth);
    }
    AllRoots(files, roots, limits);
    QuotaOfVisible(files, roots, limits);
  }

  lemma {:induction false} NoRootYet(files: Files, roots: seq<Path>, limits: Limits)
    ensures EachRoot(files.Keys, roots, 0, limits, Elements([]))
  {
  }

  /** One root of the rescan on its own: once something is missing the limit is passed, and then one
      more file a root is found. */
  lemma {:induction false} RootFound(
      files: Files, roots: seq<Path>, n: nat, limits: Limits, before: seq<Path>, walk: Walk, paths: seq<Path>)
    requires n < |roots| && Apart(roots) && NoRepeats(before) && !walk.IoError?
    requires Elements(before) <= UnderRoots(files, roots, n, limits.maxDepth)
    requires Gathered(limits, before, Under(files, roots[n], 0, limits.maxDepth), walk, paths)
    requires EachRoot(files.Keys, roots, n, limits, Elements(before))
    requires Elements(before) == UnderRoots(files, roots, n, limits.maxDepth) || |before| > limits.maxFiles
    ensures EachRoot(files.Keys, roots, n + 1, limits, Elements(paths))
    ensures Elements(paths) == UnderRoots(files, roots, n + 1, limits.maxDepth) || |paths| > limits.maxFiles
  {
    hide *;
    var maxDepth := limits.maxDepth;
    var seen, here := UnderRoots(files, roots, n, maxDepth), Under(files, roots[n], 0, maxDepth);
    NextRoot(files, roots, n, maxDepth);
    RootGathered(limits, before, here, walk, paths);
    HereBelow(files, roots[n], maxDepth);
    assert seen !! here;
    FoundCount(before);
    FoundCount(paths);
    GrewFrom(limits, before, here, walk, paths);
    AllowedIs(files, roots, n, limits);
    assert |seen + here| == |seen| + |here|;
    assert |Elements(before) + here| == |Elements(before)| + |here|;
    SubsetSize(Elements(before), seen);
    if |paths| >= |Elements(before) + here| {
      SubsetFull(Elements(paths), Elements(before) + here);
    }
    if here <= Elements(paths) {
      assert Elements(paths) == Elements(before) + here;
    }
    OtherRoots(files, roots, n, limits, Elements(before), Elements(paths));
  }

  lemma {:induction false} GrewFrom(
      limits: Limits, out0: seq<Path>, reachable: set<Path>, walk: Walk, out: seq<Path>)
    requires Gathered(limits, out0, reachable, walk, out)
    ensures Elements(out0) <= Elements(out) <= Elements(out0) + reachable
    ensures !walk.IoError? ==> walk.Complete? || walk.TooMany?
  {
    assert out == out0 + out[|out0|..];
  }

  /** What the next root adds belongs to no earlier one. */
  lemma {:induction false} OtherRoots(
      files: Files, roots: seq<Path>, n: nat, limits: Limits, before: set<Path>, found: set<Path>)
    requires n < |roots| && Apart(roots) && EachRoot(files.Keys, roots, n, limits, before)
    requires before <= found <= before + Under(files, roots[n], 0, limits.maxDepth)
    requires Under(files, roots[n], 0, limits.maxDepth) <= found <==> Allowed(files.Keys, roots, n, limits)
    ensures EachRoot(files.Keys, roots, n + 1, limits, found)
  {
    hide Allowed, Reaches;
    var maxDepth := limits.maxDepth;
    assert Share(files.Keys, roots[n], maxDepth) == Under(files, roots[n], 0, maxDepth);
    forall m | 0 <= m < n
      ensures Share(files.Keys, roots[m], maxDepth) !! Under(files, roots[n], 0, maxDepth)
    {
      forall p | p in Share(files.Keys, roots[m], maxDepth)
        ensures p !in Under(files, roots[n], 0, maxDepth)
      {
        if p in Under(files, roots[n], 0, maxDepth) {
          ApartReach(roots[m], roots[n], maxDepth, p);
          assert false;
        }
      }
    }
  }

  lemma {:induction false} NothingListed()
    ensures NoRepeats<Path>([])
  {
  }

  lemma {:induction false} NoneBelowRoot(files: Files, roots: seq<Path>, n: nat, maxDepth: nat, before: seq<Path>)
    requires n < |roots| && Elements(before) <= UnderRoots(files, roots, n, maxDepth)
    requires forall p | p in UnderRoots(files, roots, n, maxDepth) :: !Within(roots[n], p)
    ensures NoneBelow(before, roots[n])
  {
    assert forall p | p in before :: p in Elements(before);
  }

  /** Quotas count the same files whichever unreachable ones are left out. */
  lemma {:induction false} QuotaOfVisible(files: Files, roots: seq<Path>, limits: Limits)
    ensures WithinQuota(VisibleFiles(files, roots, limits), roots, limits) <==>
            forall m | 0 <= m < |roots| :: Allowed(files.Keys, roots, m, limits)
    ensures forall found :: EachRoot(VisibleFiles(files, roots, limits), roots, |roots|, limits, found) <==>
                            EachRoot(files.Keys, roots, |roots|, limits, found)
  {
    hide Reaches;
    var visible := VisibleFiles(files, roots, limits);
    forall m | 0 <= m < |roots|
      ensures Allowed(visible, roots, m, limits) <==> Allowed(files.Keys, roots, m, limits)
      ensures Share(visible, roots[m], limits.maxDepth) == Share(files.Keys, roots[m], limits.maxDepth)
    {
      assert Share(visible, roots[m], limits.maxDepth) == Share(files.Keys, roots[m], limits.maxDepth);
      assert Shares(visible, roots, m, limits.maxDepth) == Shares(files.Keys, roots, m, limits.maxDepth);
    }
  }

  /** One root of the rescan: everything is found if it was so far and the root keeps to its quota. */
  lemma {:induction false} FoundExactly(
      files: Files, roots: seq<Path>, n: nat, limits: Limits, before: seq<Path>, walk: Walk, paths: seq<Path>)
    requires n < |roots| && Apart(roots) && NoRepeats(before)
    requires Elements(before) <= UnderRoots(files, roots, n, limits.maxDepth)
    requires Gathered(limits, before, Under(files, roots[n], 0, limits.maxDepth), walk, paths)
    ensures var maxDepth := limits.maxDepth;
            && Elements(paths) <= UnderRoots(files, roots, n + 1, maxDepth)
            && (Elements(paths) == UnderRoots(files, roots, n + 1, maxDepth) ==>
                  Elements(before) == UnderRoots(files, roots, n, maxDepth))
            && (Elements(before) == UnderRoots(files, roots, n, maxDepth) && !walk.IoError? ==>
                  (Elements(paths) == UnderRoots(files, roots, n + 1, maxDepth) <==>
                   Allowed(files.Keys, roots, n, limits)))
  {
    hide *;
    var maxDepth := limits.maxDepth;
    var seen, here := UnderRoots(files, roots, n, maxDepth), Under(files, roots[n], 0, maxDepth);
    NextRoot(files, roots, n, maxDepth);
    RootGathered(limits, before, here, walk, paths);
    HereBelow(files, roots[n], maxDepth);
    assert seen !! here;
    FoundCount(before);
    FoundCount(paths);
    if Elements(before) == seen && !walk.IoError? {
      AllowedIs(files, roots, n, limits);
      assert |seen + here| == |seen| + |here|;
      if |paths| >= |seen + here| {
        SubsetFull(Elements(paths), seen + here);
      }
    }
  }

  lemma {:induction false} HereBelow(files: Files, root: Path, maxDepth: nat)
    ensures forall p | p in Under(files, root, 0, maxDepth) :: Within(root, p)
  {
  }

  lemma {:induction false} FoundCount(paths: seq<Path>)
    requires NoRepeats(paths)
    ensures |Elements(paths)| == |paths|
  {
    ListingLength(paths);
    assert Elements(paths) == set p | p in paths;
  }

  lemma {:induction false} AllowedIs(files: Files, roots: seq<Path>, n: nat, limits: Limits)
    requires n < |roots|
    ensures var share := |Under(files, roots[n], 0, limits.maxDepth)|;
            Allowed(files.Keys, roots, n, limits) <==>
            share <= 1 || |UnderRoots(files, roots, n, limits.maxDepth)| + share <= limits.maxFiles + 1
  {
    hide Reaches;
    assert Share(files.Keys, roots[n], limits.maxDepth) == Under(files, roots[n], 0, limits.maxDepth);
    assert Shares(files.Keys, roots, n, limits.maxDepth) == UnderRoots(files, roots, n, limits.maxDepth);
  }

  /** No more visible files than the limit and one: no root has too many. */
  lemma {:induction false} FewFilesFit(paths: set<Path>, roots: seq<Path>, limits: Limits)
    requires Apart(roots) && |paths| <= limits.maxFiles + 1
    ensures WithinQuota(paths, roots, limits)
  {
    forall n | 0 <= n < |roots|
      ensures Allowed(paths, roots, n, limits)
    {
      var before, here := Shares(paths, roots, n, limits.maxDepth), Share(paths, roots[n], limits.maxDepth);
      forall p | p in before
        ensures p !in here
      {
        var i :| 0 <= i < n && Reaches(roots[i], 0, limits.maxDepth, p);
        if p in here {
          ApartReach(roots[i], roots[n], limits.maxDepth, p);
          assert false;
        }
      }
      assert |before + here| == |before| + |here|;
      SubsetSize(before + here, paths);
    }
  }

  lemma {:induction false} SubsetSize<T>(a: set<T>, b: set<T>)
    requires a <= b
    ensures |a| <= |b|
  {
    assert |b - a| == |b| - |a|;
  }

  lemma {:induction false} RootGathered(
      limits: Limits, out0: seq<Path>, reachable: set<Path>, walk: Walk, out: seq<Path>)
    requires Gathered(limits, out0, reachable, walk, out)
    ensures NoRepeats(out) && Elements(out) <= Elements(out0) + reachable
    ensures walk.Complete? ==> Elements(out) == Elements(out0) + reachable
    ensures walk.TooMany? ==> |out| == Most(|out0|, limits.maxFiles) + 1 > limits.maxFiles
    ensures |out0| <= |out| <= Most(|out0|, limits.maxFiles) + 1
    ensures walk.Complete? ==> |out| <= Most(|out0|, limits.maxFiles)
    ensures walk.Complete? ==> |out| <= limits.maxFiles || out == out0
    ensures Most(|out0|, limits.maxFiles) == if |out0| > limits.maxFiles then |out0| else limits.maxFiles
  {
  }

  lemma {:induction false} NoRoots(files: Files, roots: seq<Path>, maxDepth: nat)
    ensures UnderRoots(files, roots, 0, maxDepth) == Elements([]) == {}
  {
  }

  lemma {:induction false} AllRoots(files: Files, roots: seq<Path>, limits: Limits)
    ensures UnderRoots(files, roots, |roots|, limits.maxDepth) == VisibleFiles(files, roots, limits)
  {
  }

  lemma {:induction false} SubsetFull<T>(a: set<T>, b: set<T>)
    requires a <= b && |a| >= |b|
    ensures a == b
  {
    assert |b - a| == |b| - |a|;
  }

  // ----- capture -----

  datatype SnapshotError = TooManyFiles(found: nat, fileLimit: nat) | TooLarge(bytes: nat, byteLimit: nat) | Io

  datatype Snapshot = Snapshot(roots: seq<Path>, files: Files, limits: Limits)

  function TotalBytes(files: Files, paths: seq<Path>): nat
    requires forall p | p in paths :: p in files
  {
    if paths == [] then 0 else |files[paths[0]]| + TotalBytes(files, paths[1..])
  }

  lemma {:induction false} TotalSplit(files: Files, front: seq<Path>, back: seq<Path>)
    requires forall p | p in front + back :: p in files
    ensures (forall p | p in front :: p in files) && (forall p | p in back :: p in files)
    ensures TotalBytes(files, front + back) == TotalBytes(files, front) + TotalBytes(files, back)
  {
    assert forall p | p in front :: p in front + back;
    assert forall p | p in back :: p in front + back;
    if front == [] {
      assert front + back == back;
    } else {
      assert (front + back)[1..] == front[1..] + back;
      TotalSplit(files, front[1..], back);
    }
  }

  /** The bytes of a set of files, whichever order they are listed in. */
  ghost predicate Weighs(files: Files, paths: set<Path>, total: nat) {
    exists listing :: NoRepeats(listing) && Elements(listing) == paths && (forall p | p in listing :: p in files)
                      && TotalBytes(files, listing) == total
  }

  lemma {:induction false} WithoutOne(files: Files, b: seq<Path>, i: nat)
    requires i < |b| && forall p | p in b :: p in files
    ensures forall p | p in b[..i] + b[i + 1..] :: p in files
    ensures TotalBytes(files, b) == |files[b[i]]| + TotalBytes(files, b[..i] + b[i + 1..])
  {
    var one := [b[i]];
    assert one[1..] == [];
    assert b == b[..i] + (one + b[i + 1..]);
    TotalSplit(files, b[..i], one + b[i + 1..]);
    TotalSplit(files, one, b[i + 1..]);
    assert forall p | p in b[..i] + b[i + 1..] :: p in b;
    TotalSplit(files, b[..i], b[i + 1..]);
  }

  lemma {:induction false} ElementsWithoutOne(b: seq<Path>, i: nat)
    requires i < |b| && NoRepeats(b)
    ensures NoRepeats(b[..i] + b[i + 1..])
    ensures Elements(b[..i] + b[i + 1..]) == Elements(b) - {b[i]}
  {
    var rest := b[..i] + b[i + 1..];
    forall p | p in b && p != b[i]
      ensures p in rest
    {
      var k :| 0 <= k < |b| && b[k] == p;
      if k < i {
        assert rest[k] == p;
      } else {
        assert rest[k - 1] == p;
      }
    }
    assert forall k | 0 <= k < |rest| :: rest[k] == b[if k < i then k else k + 1];
  }

  lemma {:induction false} SameTotal(files: Files, a: seq<Path>, b: seq<Path>)
    requires NoRepeats(a) && NoRepeats(b) && Elements(a) == Elements(b)
    requires (forall p | p in a :: p in files) && forall p | p in b :: p in files
    ensures TotalBytes(files, a) == TotalBytes(files, b)
  {
    if a == [] {
      ListingLength(b);
      assert Elements(b) == set x | x in b;
    } else {
      assert a[0] in Elements(b);
      var i :| 0 <= i < |b| && b[i] == a[0];
      WithoutOne(files, b, i);
      ElementsWithoutOne(b, i);
      ElementsWithoutOne(a, 0);
      assert a[..0] + a[1..] == a[1..];
      SameTotal(files, a[1..], b[..i] + b[i + 1..]);
    }
  }

  lemma {:induction false} WeighsOnce(files: Files, paths: set<Path>, m: nat, n: nat)
    requires Weighs(files, paths, m) && Weighs(files, paths, n)
    ensures m == n
  {
    var a :| NoRepeats(a) && Elements(a) == paths && (forall p | p in a :: p in files) && TotalBytes(files, a) == m;
    var b :| NoRepeats(b) && Elements(b) == paths && (forall p | p in b :: p in files) && TotalBytes(files, b) == n;
    SameTotal(files, a, b);
  }

  /** The first loop of a capture: the walk over every root, which stops at the first error. */
  method CollectAll(disk: Disk, roots: seq<Path>, limits: Limits) returns (r: Result<seq<Path>, SnapshotError>)
    requires disk.Valid() && Apart(roots)
    modifies disk`faults
    ensures disk.faults >= old(disk.faults)
    ensures r.Success? ==> NoRepeats(r.value) && |r.value| <= limits.maxFiles
    ensures r.Success? ==> Elements(r.value) == VisibleFiles(disk.files, roots, limits)
    ensures r.Failure? ==>
              || (r.error == Io && disk.faults > old(disk.faults))
              || (r.error == TooManyFiles(limits.maxFiles + 1, limits.maxFiles) &&
                  |VisibleFiles(disk.files, roots, limits)| > limits.maxFiles)
  {
    hide Gathered, Under, UnderRoots, VisibleFiles, Apart;
    ghost var all, maxDepth := disk.files, limits.maxDepth;
    var paths: seq<Path> := [];
    NoRoots(all, roots, maxDepth);
    for n := 0 to |roots|
      invariant disk.faults >= old(disk.faults) && NoRepeats(paths)
      invariant Elements(paths) == UnderRoots(all, roots, n, maxDepth)
      invariant |paths| <= limits.maxFiles
    {
      NextRoot(all, roots, n, maxDepth);
      ghost var before := paths;
      var walk;
      walk, paths := Collect(disk, roots[n], 0, limits, paths);
      RootGathered(limits, before, Under(all, roots[n], 0, maxDepth), walk, paths);
      if walk.TooMany? {
        PartCount(all, roots, limits, n + 1, paths);
        return Failure(TooManyFiles(|paths|, limits.maxFiles));
      }
      if walk.IoError? {
        return Failure(Io);
      }
    }
    AllRoots(all, roots, limits);
    r := Success(paths);
  }

  /** The second loop of a capture: read every file, as long as the bytes stay within the limit. */
  method ReadAll(disk: Disk, paths: seq<Path>, limits: Limits) returns (r: Result<Files, SnapshotError>)
    requires disk.Valid() && NoRepeats(paths) && forall p | p in paths :: p in disk.files
    modifies disk`faults
    ensures disk.faults >= old(disk.faults)
    ensures r.Success? ==> r.value.Keys == Elements(paths) && forall p | p in r.value :: r.value[p] == disk.files[p]
    ensures r.Success? ==> TotalBytes(disk.files, paths) <= limits.maxBytes
    ensures r.Failure? ==>
              || (r.error == Io && disk.faults > old(disk.faults))
              || (r.error.TooLarge? && r.error.byteLimit == limits.maxBytes &&
                  limits.maxBytes < r.error.bytes <= TotalBytes(disk.files, paths))
  {
    hide TotalBytes;
    ghost var all := disk.files;
    var total := 0;
    var files: Files := map[];
    NoBytes(all);
    for k := 0 to |paths|
      invariant disk.faults >= old(disk.faults)
      invariant files.Keys == Elements(paths[..k])
      invariant forall p | p in files :: p in all && files[p] == all[p]
      invariant forall p | p in paths[..k] :: p in all
      invariant total == TotalBytes(all, paths[..k]) <= limits.maxBytes
    {
      TakeOneMore(paths, k);
      assert paths[k] in all;
      var reading := disk.Read(paths[k]);
      if !reading.Content? {
        return Failure(Io);
      }
      OneMoreFile(all, paths, k);
      total := total + |reading.bytes|;
      if total > limits.maxBytes {
        return Failure(TooLarge(total, limits.maxBytes));
      }
      files := files[paths[k] := reading.bytes];
      assert Elements(paths[..k + 1]) == Elements(paths[..k]) + {paths[k]};
    }
    assert paths[..|paths|] == paths;
    r := Success(files);
  }

  lemma {:induction false} NoBytes(files: Files)
    ensures TotalBytes(files, []) == 0
  {
  }

  lemma {:induction false} OneMoreFile(files: Files, paths: seq<Path>, k: nat)
    requires k < |paths| && forall p | p in paths :: p in files
    ensures forall p | p in paths[..k + 1] :: p in files
    ensures forall p | p in paths[..k] :: p in files
    ensures TotalBytes(files, paths[..k + 1]) == TotalBytes(files, paths[..k]) + |files[paths[k]]|
    ensures TotalBytes(files, paths) >= TotalBytes(files, paths[..k + 1])
  {
    var one := [paths[k]];
    assert one[1..] == [];
    assert paths[..k] + one == paths[..k + 1];
    assert paths == paths[..k + 1] + paths[k + 1..];
    TotalSplit(files, paths[..k + 1], paths[k + 1..]);
    TotalSplit(files, paths[..k], one);
  }

  /** What a successful capture of `roots0` on a disk holding `files` is. */
  ghost predicate Captures(files: Files, roots0: seq<Path>, limits: Limits, snap: Snapshot) {
    && snap.roots == Normalised(roots0) && snap.limits == limits
    && snap.files.Keys == VisibleFiles(files, snap.roots, limits)
    && (forall p | p in snap.files :: p in files && snap.files[p] == files[p])
    && |snap.files| <= limits.maxFiles
    && exists total: nat :: Weighs(files, snap.files.Keys, total) && total <= limits.maxBytes
  }

  /** A snapshot holds the documents under its roots, all of them and nothing else, with what was
      in them. */
  ghost predicate HoldsDocuments(files: Files, snap: Snapshot) {
    && (forall p :: p in snap.files <==>
          p in files && exists i | 0 <= i < |snap.roots| :: DocumentUnder(snap.roots[i], snap.limits.maxDepth, p))
    && forall p | p in snap.files :: p in files && snap.files[p] == files[p]
  }

  lemma {:induction false} CapturedDocuments(files: Files, roots0: seq<Path>, limits: Limits, snap: Snapshot)
    requires Captures(files, roots0, limits, snap)
    ensures HoldsDocuments(files, snap)
  {
    hide DocumentUnder, Reaches;
    forall p
      ensures p in snap.files <==>
              p in files && exists i | 0 <= i < |snap.roots| :: DocumentUnder(snap.roots[i], snap.limits.maxDepth, p)
    {
      assert p in snap.files <==> p in VisibleFiles(files, snap.roots, limits);
      forall i | 0 <= i < |snap.roots|
        ensures Reaches(snap.roots[i], 0, limits.maxDepth, p) <==> DocumentUnder(snap.roots[i], limits.maxDepth, p)
      {
        ReachesExactly(snap.roots[i], limits.maxDepth, p);
      }
    }
  }

  /** A document under a given root that lies inside a kept one is captured exactly when the walk from
      the kept root gets to the given one: no directory on the way passed over, the depth counted
      from the kept root. */
  lemma {:induction false} GivenRootCoveredExactly(
      files: Files, roots0: seq<Path>, limits: Limits, snap: Snapshot, kept: Path, root: Path, p: Path)
    requires Captures(files, roots0, limits, snap) && kept in snap.roots && root in roots0 && kept <= root
    requires p in files && DocumentUnder(root, limits.maxDepth, p)
    ensures p in snap.files <==>
            && |p| - 1 - |kept| <= limits.maxDepth
            && forall i | |kept| <= i < |root| :: !PassedOver(root[i])
  {
    hide DocumentUnder, PassedOver, Skipped, IsTrackedName, KeptWell;
    ReachesExactly(root, limits.maxDepth, p);
    NormalisedWell(roots0);
    assert root[..|kept|] == kept;
    assert p[..|kept|] == p[..|root|][..|kept|] == kept;
    OnlyRoot(snap.roots, limits, kept, p);
    forall i | |kept| <= i < |root| ensures p[i] == root[i] && (Skipped(p[i]) <==> PassedOver(root[i])) {
      assert p[i] == p[..|root|][i];
      SkippedExactly(root[i]);
    }
    assert (forall i | |kept| <= i < |p| - 1 :: !Skipped(p[i])) <==>
           forall i | |kept| <= i < |root| :: !Skipped(p[i]);
  }

  /** A root given inside a directory that no walk enters, beside the root above it, is not walked. */
  lemma {:induction false} NestedRootIsLost(files: Files, limits: Limits, snap: Snapshot)
    requires var outer: Path, board: Path := ["project"], ["project", "target", "amp.kicad_pcb"];
             && Captures(files, [outer, outer + ["target"]], limits, snap)
             && board in files
    ensures var root: Path, board: Path := ["project", "target"], ["project", "target", "amp.kicad_pcb"];
            DocumentUnder(root, limits.maxDepth, board) && board !in snap.files
  {
    hide Captures, KeptWell, DocumentUnder;
    var outer: Path, root: Path := ["project"], ["project", "target"];
    var roots0, board := [outer, outer + ["target"]], root + ["amp.kicad_pcb"];
    assert outer + ["target"] == root && roots0[1] == root;
    assert board == ["project", "target", "amp.kicad_pcb"] == root + [] + ["amp.kicad_pcb"];
    BoardIsDocument();
    UnderItself(root, limits.maxDepth, "amp.kicad_pcb");
    OuterIsKept(files, roots0, limits, snap, outer, root);
    GivenRootCoveredExactly(files, roots0, limits, snap, outer, root, board);
    assert root[1] == "target" && PassedOver(root[1]);
  }

  lemma {:induction false} BoardIsDocument()
    ensures IsDocument("amp.kicad_pcb")
  {
    assert "amp.kicad_pcb" == "amp" + "." + "kicad_pcb";
    assert '.' !in "kicad_pcb" && TrackedExtension("kicad_pcb");
  }

  lemma {:induction false} UnderItself(root: Path, maxDepth: nat, name: string)
    requires IsDocument(name)
    ensures DocumentUnder(root, maxDepth, root + [] + [name])
  {
  }

  lemma {:induction false} OuterIsKept(
      files: Files, roots0: seq<Path>, limits: Limits, snap: Snapshot, outer: Path, root: Path)
    requires Captures(files, roots0, limits, snap) && roots0 == [outer, root] && !(root <= outer)
    ensures outer in snap.roots
  {
    NormalisedWell(roots0);
    assert outer in roots0 by {
      assert roots0[0] == outer;
    }
    var k :| k in snap.roots && k <= outer;
    assert k in roots0;
  }

  lemma {:induction false} OnlyRoot(roots: seq<Path>, limits: Limits, kept: Path, p: Path)
    requires Apart(roots) && kept in roots && Within(kept, p)
    ensures Visible(roots, limits, p) <==> Reaches(kept, 0, limits.maxDepth, p)
  {
    var k :| 0 <= k < |roots| && roots[k] == kept;
    if Visible(roots, limits, p) {
      var i :| 0 <= i < |roots| && Reaches(roots[i], 0, limits.maxDepth, p);
      WithinBoth(roots[i], kept, p);
      assert i == k;
    }
  }

  /** Why a capture may refuse although the disk answered every call. */
  ghost predicate OverLimit(files: Files, visible: set<Path>, limits: Limits) {
    |visible| > limits.maxFiles || exists total: nat :: Weighs(files, visible, total) && total > limits.maxBytes
  }

  /** What the error a capture reports says: one file more than allowed was met, or with no more files
      than allowed, more bytes. */
  ghost predicate Excuse(files: Files, visible: set<Path>, limits: Limits, error: SnapshotError) {
    match error
    case TooManyFiles(found, limit) =>
      limit == limits.maxFiles && found == limit + 1 && |visible| > limit
    case TooLarge(bytes, limit) =>
      && limit == limits.maxBytes && bytes > limit && |visible| <= limits.maxFiles
      && exists total: nat :: Weighs(files, visible, total) && bytes <= total
    case Io => true
  }

  /** The two are exclusive: a capture succeeds within both limits and only there. */
  lemma {:induction false} CapturesWithinLimits(files: Files, roots0: seq<Path>, limits: Limits, snap: Snapshot)
    requires Captures(files, roots0, limits, snap)
    ensures !OverLimit(files, VisibleFiles(files, Normalised(roots0), limits), limits)
  {
    var small: nat :| Weighs(files, snap.files.Keys, small) && small <= limits.maxBytes;
    forall total: nat | Weighs(files, snap.files.Keys, total)
      ensures total <= limits.maxBytes
    {
      WeighsOnce(files, snap.files.Keys, small, total);
    }
  }

  method Capture(disk: Disk, roots0: seq<Path>, limits: Limits) returns (r: Result<Snapshot, SnapshotError>)
    requires disk.Valid()
    modifies disk`faults
    ensures r.Success? ==> Captures(disk.files, roots0, limits, r.value) && HoldsDocuments(disk.files, r.value)
    ensures r.Failure? && disk.faults == old(disk.faults) ==>
              OverLimit(disk.files, VisibleFiles(disk.files, Normalised(roots0), limits), limits)
    ensures r.Failure? ==> Excuse(disk.files, VisibleFiles(disk.files, Normalised(roots0), limits), limits, r.error)
    ensures r.Failure? && r.error == Io ==> disk.faults > old(disk.faults)
    ensures disk.faults >= old(disk.faults)
  {
    hide VisibleFiles, KeptWell, Apart, TotalBytes, HoldsDocuments, Weighs, Normalised;
    NormalisedWell(roots0);
    var roots := NormaliseRoots(roots0);
    var collected := CollectAll(disk, roots, limits);
    if collected.Failure? {
      return Failure(collected.error);
    }
    var paths := collected.value;
    ListedVisible(disk.files, roots, limits, paths);
    var contents := ReadAll(disk, paths, limits);
    if contents.Failure? {
      return Failure(contents.error);
    }
    r := Success(Snapshot(roots, contents.value, limits));
    CapturedDocuments(disk.files, roots0, limits, r.value);
  }

  lemma {:induction false} ListedVisible(files: Files, roots: seq<Path>, limits: Limits, paths: seq<Path>)
    requires NoRepeats(paths) && Elements(paths) == VisibleFiles(files, roots, limits)
    ensures forall p | p in paths :: p in files
    ensures Weighs(files, Elements(paths), TotalBytes(files, paths)) && |Elements(paths)| == |paths|
  {
    hide Visible, TotalBytes;
    ListingLength(paths);
    assert forall p | p in paths :: p in Elements(paths);
  }

  lemma {:induction false} PartCount(files: Files, roots: seq<Path>, limits: Limits, n: nat, paths: seq<Path>)
    requires n <= |roots| && NoRepeats(paths) && Elements(paths) <= UnderRoots(files, roots, n, limits.maxDepth)
    ensures |paths| <= |VisibleFiles(files, roots, limits)|
  {
    ListingLength(paths);
    var visible := VisibleFiles(files, roots, limits);
    assert Elements(paths) <= visible;
    assert |visible - Elements(paths)| == |visible| - |Elements(paths)|;
  }
}
