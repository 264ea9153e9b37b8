/** Paths as the journal records them: a common root, and tails written with slashes. */
module JournalPaths {
  import opened Wrappers
  import opened Text
  import opened Disks

  /** The component an absolute path starts with. */
  const ROOT: string := "/"

  /** A component, as splitting at slashes leaves it. */
  predicate Part(name: string) {
    name != "" && '/' !in name
  }

  /** A component that names what it says, rather than the directory itself or the one above. */
  predicate Plain(name: string) {
    Part(name) && name != "." && name != ".."
  }

  predicate PartPath(p: Path) {
    forall i | 0 <= i < |p| :: Part(p[i])
  }

  predicate PlainPath(p: Path) {
    forall i | 0 <= i < |p| :: Plain(p[i])
  }

  predicate Absolute(p: Path) {
    p != [] && p[0] == ROOT
  }

  /** A document's path: it ends in a file's name, after a root component if it is absolute. */
  predicate DocumentPath(p: Path) {
    p != [] && Plain(p[|p| - 1]) && PartPath(p[1..]) && (Absolute(p) || Part(p[0]))
  }

  function Parent(p: Path): Path {
    if p == [] then [] else p[..|p| - 1]
  }

  function CommonPrefix(a: Path, b: Path): Path {
    if a == [] || b == [] || a[0] != b[0] then [] else [a[0]] + CommonPrefix(a[1..], b[1..])
  }

  /** The longest path that every document's directory starts with. */
  function SharedPrefix(paths: seq<Path>): Path
    requires paths != []
  {
    if |paths| == 1 then Parent(paths[0])
    else CommonPrefix(SharedPrefix(paths[..|paths| - 1]), Parent(paths[|paths| - 1]))
  }

  function CommonRoot(paths: seq<Path>): Option<Path> {
    if paths == [] || SharedPrefix(paths) == [] then None else Some(SharedPrefix(paths))
  }

  /** How many leading components agree. */
  method Agreeing(a: Path, b: Path) returns (n: nat)
    ensures n <= |a| && a[..n] == CommonPrefix(a, b)
  {
    n := 0;
    while n < |a| && n < |b| && a[n] == b[n]
      invariant n <= |a| && n <= |b| && CommonPrefix(a, b) == a[..n] + CommonPrefix(a[n..], b[n..])
    {
      TakeOneMore(a, n);
      assert a[n..][1..] == a[n + 1..] && b[n..][1..] == b[n + 1..];
      ConcatAssoc(a[..n], [a[n]], CommonPrefix(a[n + 1..], b[n + 1..]));
      n := n + 1;
    }
    assert CommonPrefix(a[n..], b[n..]) == [];
  }

  method FindCommonRoot(paths: seq<Path>) returns (root: Option<Path>)
    ensures root == CommonRoot(paths)
  {
    if paths == [] {
      return None;
    }
    var prefix := Parent(paths[0]);
    assert paths[..1] == [paths[0]];
    for i := 1 to |paths|
      invariant prefix == SharedPrefix(paths[..i])
    {
      var n := Agreeing(prefix, Parent(paths[i]));
      prefix := prefix[..n];
      assert paths[..i + 1][..i] == paths[..i];
    }
    assert paths[..|paths|] == paths;
    root := if prefix == [] then None else Some(prefix);
  }

  lemma {:induction false} CommonPrefixGreatest(a: Path, b: Path, q: Path)
    ensures CommonPrefix(a, b) <= a && CommonPrefix(a, b) <= b
    ensures q <= a && q <= b ==> q <= CommonPrefix(a, b)
  {
    if a != [] && b != [] && a[0] == b[0] {
      CommonPrefixGreatest(a[1..], b[1..], if q == [] then [] else q[1..]);
      assert a == [a[0]] + a[1..] && b == [b[0]] + b[1..];
      if q != [] && q <= a && q <= b {
        assert q == [q[0]] + q[1..];
        assert q[0] == a[0] && q[1..] <= a[1..] && q[1..] <= b[1..];
      }
    }
  }

  ghost predicate BelowAll(paths: seq<Path>, q: Path) {
    forall p | p in paths :: q <= Parent(p)
  }

  lemma {:induction false} SharedPrefixGreatest(paths: seq<Path>, q: Path)
    requires paths != []
    ensures BelowAll(paths, SharedPrefix(paths))
    ensures BelowAll(paths, q) ==> q <= SharedPrefix(paths)
  {
    if |paths| > 1 {
      var init, last := paths[..|paths| - 1], paths[|paths| - 1];
      SharedPrefixGreatest(init, q);
      CommonPrefixGreatest(SharedPrefix(init), Parent(last), q);
      hide CommonPrefix, Parent, BelowAll;
      assert paths == init + [last];
      BelowAppend(init, last, q);
      BelowAppend(init, last, SharedPrefix(paths));
      LessTwice(SharedPrefix(paths), SharedPrefix(init), init);
    } else {
      assert forall p :: p in paths <==> p == paths[0];
    }
  }

  lemma {:induction false} BelowAppend(init: seq<Path>, last: Path, q: Path)
    ensures BelowAll(init + [last], q) <==> BelowAll(init, q) && q <= Parent(last)
  {
    hide Parent;
    assert forall p :: p in init + [last] <==> p in init || p == last;
  }

  lemma {:induction false} LessTwice(a: Path, b: Path, paths: seq<Path>)
    requires a <= b && BelowAll(paths, b)
    ensures BelowAll(paths, a)
  {
    forall p | p in paths
      ensures a <= Parent(p)
    {
      assert b <= Parent(p);
    }
  }

  function Relativize(p: Path, root: Option<Path>): Path {
    if root.Some? && root.value <= p then p[|root.value|..] else p
  }

  /** Every document lies below the root, and root and tail together are its path again. */
  lemma {:induction false} RootRebuilds(paths: seq<Path>, p: Path)
    requires p in paths && p != [] && CommonRoot(paths).Some?
    ensures var root := CommonRoot(paths);
            root.value <= p && root.value + Relativize(p, root) == p && Relativize(p, root) != []
  {
    SharedPrefixGreatest(paths, []);
    var root := CommonRoot(paths).value;
    assert root <= p[..|p| - 1];
    assert p == p[..|p| - 1] + [p[|p| - 1]];
  }

  /** A tail that was made relative holds no root, and ends in the document's name. */
  lemma {:induction false} TailShape(paths: seq<Path>, p: Path)
    requires p in paths && DocumentPath(p)
    ensures var tail := Relativize(p, CommonRoot(paths));
            && DocumentPath(tail) && (Absolute(tail) <==> CommonRoot(paths).None? && Absolute(p))
            && (!Absolute(tail) ==> PartPath(tail))
  {
    if CommonRoot(paths).Some? {
      RootRebuilds(paths, p);
      var root := CommonRoot(paths).value;
      var tail := p[|root|..];
      assert tail == p[1..][|root| - 1..];
      assert Part(tail[0]) && tail[|tail| - 1] == p[|p| - 1];
    } else {
      assert p == [p[0]] + p[1..];
    }
  }

  // ----- where a path leads -----

  /** One component followed from `at`; above the root is the root. */
  function Step(at: Path, name: string): Path {
    if name == "." then at
    else if name == ".." then (if |at| <= 1 then at else at[..|at| - 1])
    else at + [name]
  }

  function Walk(base: Path, p: Path): Path {
    if p == [] then base else Step(Walk(base, p[..|p| - 1]), p[|p| - 1])
  }

  /** The names left once each ".." has taken back the name before it. */
  function Settled(p: Path): Path {
    if p == [] then []
    else
      var before, name := Settled(p[..|p| - 1]), p[|p| - 1];
      if name == "." then before
      else if name == ".." then (if before == [] then [] else before[..|before| - 1])
      else before + [name]
  }

  /** How many ".." are left over: how far above its start the path climbs. */
  function Climb(p: Path): nat {
    if p == [] then 0
    else
      Climb(p[..|p| - 1]) + (if p[|p| - 1] == ".." && Settled(p[..|p| - 1]) == [] then 1 else 0)
  }

  /** How much is left of a path of `n` components after climbing, at least its root. */
  function Kept(n: nat, climb: nat): nat {
    if n > climb + 1 then n - climb else 1
  }

  lemma {:induction false} WalkExactly(base: Path, p: Path)
    requires base != []
    ensures 1 <= Kept(|base|, Climb(p)) <= |base|
    ensures Walk(base, p) == base[..Kept(|base|, Climb(p))] + Settled(p)
  {
    if p != [] {
      WalkExactly(base, p[..|p| - 1]);
    }
  }

  lemma {:induction false} PlainSettles(p: Path)
    requires PlainPath(p)
    ensures Settled(p) == p && Climb(p) == 0
  {
    if p != [] {
      PlainSettles(p[..|p| - 1]);
    }
  }

  lemma {:induction false} EndsInName(p: Path)
    requires p != [] && Plain(p[|p| - 1])
    ensures Settled(p) != []
  {
  }

  /** The file at the absolute path `p`, named from `dir` when it lies below. */
  function Key(dir: Path, p: Path): Path {
    if dir <= p then p[|dir|..] else p
  }

  /** The names a tail adds, and what it adds them to: an absolute tail replaces the directory. */
  function Added(tail: Path): Path {
    if Absolute(tail) then Settled(tail[1..]) else Settled(tail)
  }

  function Start(dir: Path, base: Path, tail: Path): Path {
    if Absolute(tail) then [ROOT] else dir + base
  }

  /** The file that `tail`, joined to `base` below `dir`, leads to. */
  function Landing(dir: Path, base: Path, tail: Path): Path {
    Key(dir, Walk(Start(dir, base, tail), if Absolute(tail) then tail[1..] else tail))
  }

  /** How much of the directory a tail is joined to survives it. */
  function Floor(dir: Path, base: Path, tail: Path): nat {
    if Absolute(tail) then 1 else Kept(|dir + base|, Climb(tail))
  }

  /** A tail that stays where it is joined. */
  predicate Stays(tail: Path) {
    !Absolute(tail) && Climb(tail) == 0
  }

  lemma {:induction false} LandingIs(dir: Path, base: Path, tail: Path)
    requires Absolute(dir)
    ensures var start, n := Start(dir, base, tail), Floor(dir, base, tail);
            n <= |start| && Landing(dir, base, tail) == Key(dir, start[..n] + Added(tail))
    ensures Stays(tail) ==> Landing(dir, base, tail) == base + Added(tail)
  {
    if Absolute(tail) {
      WalkExactly([ROOT], tail[1..]);
    } else {
      WalkExactly(dir + base, tail);
      if Climb(tail) == 0 {
        assert (dir + base)[..|dir + base|] == dir + base;
        assert (dir + base + Added(tail))[|dir|..] == base + Added(tail);
      }
    }
  }

  /** Exactly when what is joined to `base` lands below `top`, a directory above it: enough of the
      directories survives, or the names added lead back down into `top`. */
  lemma {:induction false} LandsBelowExactly(dir: Path, top: Path, base: Path, tail: Path)
    requires Absolute(dir) && [] < top <= base && PlainPath(base) && Added(tail) != []
    ensures var n := Floor(dir, base, tail);
            Within(top, Landing(dir, base, tail)) <==>
            n >= |dir + top| || (|Added(tail)| > |dir + top| - n && Added(tail)[..|dir + top| - n] == (dir + top)[n..])
  {
    var start, n, more := Start(dir, base, tail), Floor(dir, base, tail), Added(tail);
    LandingIs(dir, base, tail);
    var p := start[..n] + more;
    KeyBelow(dir, top, p);
    StartAgrees(dir, top, base, tail);
    WithinJoined(dir + top, start, n, more);
  }

  lemma {:induction false} StartAgrees(dir: Path, top: Path, base: Path, tail: Path)
    requires Absolute(dir) && top <= base
    ensures var start, n := Start(dir, base, tail), Floor(dir, base, tail);
            n <= |start| && n <= |dir + base| && start[..n] == (dir + base)[..n] && dir + top <= dir + base
  {
    assert dir + base == dir + top + base[|top|..];
  }

  lemma {:induction false} WithinJoined(top: Path, start: Path, n: nat, more: Path)
    requires n <= |start| && more != []
    requires if n >= |top| then start[..|top|] == top else start[..n] == top[..n]
    ensures Within(top, start[..n] + more) <==> n >= |top| || (|more| > |top| - n && more[..|top| - n] == top[n..])
  {
    var p := start[..n] + more;
    if n >= |top| {
      assert p[..|top|] == start[..|top|];
    } else if |top| < |p| {
      assert p[..|top|] == start[..n] + more[..|top| - n];
      assert top == top[..n] + top[n..];
      assert p[..|top|][n..] == more[..|top| - n];
    }
  }

  /** Below `dir`, a file's key is its path from there; no other file has such a key. */
  lemma {:induction false} KeyBelow(dir: Path, top: Path, p: Path)
    requires Absolute(dir) && Absolute(p) && top != [] && !Absolute(top)
    ensures Within(top, Key(dir, p)) <==> Within(dir + top, p)
  {
    BelowBoth(dir, top, p);
    if dir <= p {
      assert p == dir + p[|dir|..];
      if |dir + top| <= |p| {
        assert p[..|dir + top|] == dir + p[|dir|..][..|top|];
        assert (dir + top)[|dir|..] == top;
      }
    } else if |top| < |p| {
      assert p[..|top|][0] == p[0];
    }
  }

  lemma {:induction false} BelowBoth(dir: Path, top: Path, p: Path)
    ensures Within(dir + top, p) ==> dir <= p
  {
    if |dir + top| < |p| {
      assert p[..|dir + top|][..|dir|] == p[..|dir|] && (dir + top)[..|dir|] == dir;
    }
  }

  // ----- slashes -----

  function ToSlash(p: Path): string
    requires p != []
  {
    Join(p, '/')
  }

  /** Empty parts name nothing. */
  function NonEmpty(parts: seq<string>): Path {
    if parts == [] then []
    else (if parts[0] == "" then [] else [parts[0]]) + NonEmpty(parts[1..])
  }

  function FromSlash(s: string): Path {
    NonEmpty(Split(s, '/'))
  }

  lemma {:induction false} NonEmptyAll(parts: seq<string>)
    requires forall i | 0 <= i < |parts| :: parts[i] != ""
    ensures NonEmpty(parts) == parts
  {
    if parts != [] {
      NonEmptyAll(parts[1..]);
    }
  }

  /** A tail written with slashes reads back as itself. */
  lemma {:induction false} SlashRoundTrip(p: Path)
    requires p != [] && PartPath(p)
    ensures FromSlash(ToSlash(p)) == p
  {
    SplitOfJoin(p, '/');
    NonEmptyAll(p);
  }
}
