/** The two-tier cache of built graphs, under any interleaving of calls and file edits. */
module GraphStores {
  import opened Wrappers
  import opened Text
  import opened Sorting
  import opened Items
  import Graphs
  import GraphQueries
  import Disks

  type Bytes = Disks.Bytes
  type Document = Graphs.Document

  const CACHE_CAPACITY: nat := 64

  // ----- a bounded cache -----

  datatype Cache<K, V> = Cache(entries: map<K, V>, order: seq<K>)

  /** The queue lists the keys once each, and there are not too many. */
  ghost predicate Bounded<K, V>(c: Cache<K, V>) {
    && NoRepeats(c.order) && |c.order| <= CACHE_CAPACITY
    && c.entries.Keys == set k | k in c.order
  }

  function Evicted<K, V>(c: Cache<K, V>): Cache<K, V>
    decreases |c.order|
  {
    if |c.order| <= CACHE_CAPACITY then c
    else Evicted(Cache(c.entries - {c.order[0]}, c.order[1..]))
  }

  function Remembered<K, V>(c: Cache<K, V>, key: K, value: V): Cache<K, V> {
    if key in c.entries then Cache(c.entries[key := value], c.order)
    else Evicted(Cache(c.entries[key := value], c.order + [key]))
  }

  ghost predicate QueueListsKeys<K, V>(c: Cache<K, V>) {
    NoRepeats(c.order) && c.entries.Keys == set k | k in c.order
  }

  lemma {:induction false} KeyAppended<K, V>(c: Cache<K, V>, key: K, value: V)
    requires QueueListsKeys(c) && key !in c.entries
    ensures QueueListsKeys(Cache(c.entries[key := value], c.order + [key]))
  {
    var grown := c.order + [key];
    assert key !in c.order;
    assert (set k | k in grown) == (set k | k in c.order) + {key};
  }

  lemma {:induction false} OldestDropped<K, V>(c: Cache<K, V>)
    requires QueueListsKeys(c) && c.order != []
    ensures c.order[0] in c.entries
    ensures QueueListsKeys(Cache(c.entries - {c.order[0]}, c.order[1..]))
  {
    var oldest, rest := c.order[0], c.order[1..];
    assert c.order == [oldest] + rest;
    assert forall i | 0 <= i < |rest| :: rest[i] == c.order[i + 1];
    assert oldest !in rest;
    assert (set k | k in rest) == (set k | k in c.order) - {oldest};
  }

  /** Storing keeps the cache bounded, holds the new entry, and alters no other: at most the oldest
      key is dropped, and only to make room for a new one. */
  lemma {:induction false} RememberedKeeps<K, V>(c: Cache<K, V>, key: K, value: V)
    requires Bounded(c)
    ensures var next := Remembered(c, key, value);
            && Bounded(next) && key in next.entries && next.entries[key] == value
            && (forall k | k in next.entries && k != key :: k in c.entries && next.entries[k] == c.entries[k])
            && (forall k | k in c.entries && k !in next.entries ::
                  key !in c.entries && |c.order| == CACHE_CAPACITY && k == c.order[0])
  {
    hide QueueListsKeys;
    assert QueueListsKeys(c) by { BoundedQueue(c); }
    if key !in c.entries {
      var grown := Cache(c.entries[key := value], c.order + [key]);
      KeyAppended(c, key, value);
      if |grown.order| > CACHE_CAPACITY {
        OldestDropped(c);
        OldestDropped(grown);
        var dropped := Cache(grown.entries - {grown.order[0]}, grown.order[1..]);
        assert Evicted(grown) == Evicted(dropped) == dropped;
        BoundedQueue(dropped);
      } else {
        BoundedQueue(grown);
      }
    } else {
      assert c.entries[key := value].Keys == c.entries.Keys;
    }
  }

  lemma {:induction false} BoundedQueue<K, V>(c: Cache<K, V>)
    ensures Bounded(c) <==> QueueListsKeys(c) && |c.order| <= CACHE_CAPACITY
  {
  }

  method Remember<K(==), V>(c: Cache<K, V>, key: K, value: V) returns (next: Cache<K, V>)
    ensures next == Remembered(c, key, value)
  {
    var isNew := key !in c.entries;
    var entries := c.entries[key := value];
    var order := c.order;
    if isNew {
      order := order + [key];
      while |order| > CACHE_CAPACITY
        invariant Evicted(Cache(entries, order)) == Remembered(c, key, value)
        decreases |order|
      {
        var oldest := order[0];
        order := order[1..];
        entries := entries - {oldest};
      }
    }
    next := Cache(entries, order);
  }

  function Lookup<K, V>(c: Cache<K, V>, key: K): Option<V> {
    if key in c.entries then Some(c.entries[key]) else None
  }

  // ----- one project's documents -----

  type Path = string

  datatype DocumentKind = Schematic | Board

  /** What the cache treats as given: digests, extraction and index building. */
  datatype World<G> = World(
    revision: Bytes -> string,
    kindOf: Path -> Option<DocumentKind>,
    extract: (DocumentKind, Bytes) -> Option<ItemSet>,
    build: seq<Document> -> G)

  /** Revisions are hex digests, injective on contents. */
  ghost predicate Faithful<G(!new)>(w: World<G>) {
    && (forall a, b :: w.revision(a) == w.revision(b) ==> a == b)
    && (forall a :: ';' !in w.revision(a) && '=' !in w.revision(a))
  }

  datatype Reading = Reading(path: Path, bytes: Bytes)

  /** The file name alone. */
  function DocumentName(path: Path): string {
    var parts := Split(path, '/');
    parts[|parts| - 1]
  }

  /** A document that does not parse contributes nothing. */
  function Documents<G>(w: World<G>, readings: seq<Reading>): seq<Document> {
    if readings == [] then []
    else WithDocument(w, Documents(w, readings[..|readings| - 1]), readings[|readings| - 1].path,
        Extraction(w, readings[|readings| - 1]))
  }

  function WithDocument<G>(w: World<G>, docs: seq<Document>, path: Path, extraction: Option<ItemSet>): seq<Document> {
    if extraction.Some? then docs + [Graphs.Document(DocumentName(path), extraction.value)] else docs
  }

  function Extraction<G>(w: World<G>, r: Reading): Option<ItemSet> {
    match w.kindOf(r.path)
    case None => None
    case Some(kind) => w.extract(kind, r.bytes)
  }

  /** The graph built with no cache at all. */
  function FromScratch<G>(w: World<G>, readings: seq<Reading>): G {
    w.build(Documents(w, readings))
  }

  function RevisionOf<G>(w: World<G>, r: Reading): string {
    r.path + "=" + w.revision(r.bytes)
  }

  function Revisions<G>(w: World<G>, readings: seq<Reading>): (out: seq<string>)
    ensures |out| == |readings| && forall i | 0 <= i < |readings| :: out[i] == RevisionOf(w, readings[i])
  {
    seq(|readings|, i requires 0 <= i < |readings| => RevisionOf(w, readings[i]))
  }

  function Signature<G>(w: World<G>, readings: seq<Reading>): string {
    if readings == [] then "" else Join(Revisions(w, readings), ';')
  }

  /** What follows a path in a signature that goes on. */
  function Mark<G>(w: World<G>, bytes: Bytes): string {
    "=" + w.revision(bytes) + ";"
  }

  /** A path a signature can keep apart: it holds no "=", revision, ";" of any content. */
  ghost predicate CleanPath<G>(w: World<G>, path: Path) {
    forall bytes :: !Contains(path, Mark(w, bytes))
  }

  ghost predicate Clean<G>(w: World<G>, readings: seq<Reading>) {
    forall i | 0 <= i < |readings| :: CleanPath(w, readings[i].path)
  }

  /** What may follow one reading's part of a signature. */
  predicate Ends(rest: string) {
    rest == "" || rest[0] == ';'
  }

  /** A path is no longer than another that its signature could be read with, unless it holds a mark. */
  lemma {:induction false} NotLonger(p: string, r: string, rest: string, q: string, s: string, more: string)
    requires p + "=" + r + rest == q + "=" + s + more
    requires '=' !in s && Ends(more)
    ensures |q| < |p| ==> Contains(p, "=" + s + ";")
  {
    var all := q + "=" + s + more;
    var mark := "=" + s + ";";
    assert all == p + "=" + r + rest;
    if |q| < |p| {
      assert all[|p|] == '=';
      assert forall k | 0 <= k < |s| :: all[|q| + 1 + k] == s[k];
      assert more != "" ==> all[|q| + 1 + |s|] == ';';
      assert |q| + |mark| <= |p|;
      assert all[|q|..|q| + |mark|] == mark;
      assert p[|q|..][..|mark|] == all[|q|..|q| + |mark|];
      assert StartsWith(p[|q|..], mark);
    }
  }

  lemma {:induction false} SameRevision(r: string, rest: string, s: string, more: string)
    requires r + rest == s + more && ';' !in r && ';' !in s && Ends(rest) && Ends(more)
    ensures r == s && rest == more
  {
    RevisionEnds(r, rest);
    RevisionEnds(s, more);
    assert (r + rest)[..|r|] == r && (r + rest)[|r|..] == rest;
    assert (s + more)[..|s|] == s && (s + more)[|s|..] == more;
  }

  lemma {:induction false} RevisionEnds(r: string, rest: string)
    requires ';' !in r && Ends(rest)
    ensures IndexOf(r + rest, ';') == |r|
  {
    if rest == "" {
      assert r + rest == r;
      assert ';' !in r;
    } else {
      assert r + rest == r + [';'] + rest[1..];
      IndexOfIn(r, ';', rest[1..]);
    }
  }

  lemma {:induction false} AfterPath(path: string, r: string, rest: string)
    ensures var all := path + "=" + r + rest;
            all[..|path|] == path && all[|path| + 1..] == r + rest
  {
  }

  lemma {:induction false} SameHead<G(!new)>(w: World<G>, a: Reading, rest: string, b: Reading, more: string)
    requires Faithful(w) && CleanPath(w, a.path) && CleanPath(w, b.path) && Ends(rest) && Ends(more)
    requires RevisionOf(w, a) + rest == RevisionOf(w, b) + more
    ensures a == b && rest == more
  {
    hide Contains, Ends;
    var r, s := w.revision(a.bytes), w.revision(b.bytes);
    assert Mark(w, a.bytes) == "=" + r + ";" && Mark(w, b.bytes) == "=" + s + ";";
    NotLonger(a.path, r, rest, b.path, s, more);
    NotLonger(b.path, s, more, a.path, r, rest);
    AfterPath(a.path, r, rest);
    AfterPath(b.path, s, more);
    SameRevision(r, rest, s, more);
  }

  /** What a signature has after its first reading. */
  function Following<G>(w: World<G>, readings: seq<Reading>): (rest: string)
    requires readings != []
    ensures Ends(rest)
  {
    if |readings| == 1 then "" else ";" + Signature(w, readings[1..])
  }

  lemma {:induction false} SignatureStarts<G>(w: World<G>, readings: seq<Reading>)
    requires readings != []
    ensures Signature(w, readings) == RevisionOf(w, readings[0]) + Following(w, readings) != ""
  {
    hide RevisionOf;
    var parts := Revisions(w, readings);
    if |readings| > 1 {
      assert parts[1..] == Revisions(w, readings[1..]);
      assert [';'] + Join(parts[1..], ';') == Following(w, readings);
    }
    assert RevisionOf(w, readings[0]) != "" by {
      LongEnough(w, readings[0]);
    }
  }

  lemma {:induction false} LongEnough<G>(w: World<G>, r: Reading)
    ensures RevisionOf(w, r) != ""
  {
    assert |RevisionOf(w, r)| >= 1;
  }

  lemma {:induction false} SignatureEmpty<G>(w: World<G>, readings: seq<Reading>)
    ensures Signature(w, readings) == "" <==> readings == []
  {
    hide RevisionOf, Join;
    if readings != [] {
      SignatureStarts(w, readings);
    }
  }

  /** Among clean paths a signature names one list of readings: the same files with the same bytes. */
  lemma {:induction false} SignatureInjective<G(!new)>(w: World<G>, a: seq<Reading>, b: seq<Reading>)
    requires Faithful(w) && Clean(w, a) && Clean(w, b) && Signature(w, a) == Signature(w, b)
    ensures a == b
  {
    hide *;
    SignatureEmpty(w, a);
    SignatureEmpty(w, b);
    if a != [] && b != [] {
      SignatureStarts(w, a);
      SignatureStarts(w, b);
      CleanParts(w, a);
      CleanParts(w, b);
      SameHead(w, a[0], Following(w, a), b[0], Following(w, b));
      FollowingExactly(w, a);
      FollowingExactly(w, b);
      if Following(w, a) != "" {
        assert Following(w, a)[1..] == Signature(w, a[1..]);
        assert Following(w, b)[1..] == Signature(w, b[1..]);
        SignatureInjective(w, a[1..], b[1..]);
        assert a == [a[0]] + a[1..] && b == [b[0]] + b[1..];
      }
    }
  }

  lemma {:induction false} FollowingExactly<G>(w: World<G>, readings: seq<Reading>)
    requires readings != []
    ensures Following(w, readings) == "" <==> readings == [readings[0]]
    ensures Following(w, readings) != "" ==>
              |readings| > 1 && Following(w, readings) == ";" + Signature(w, readings[1..])
  {
    hide Signature;
  }

  lemma {:induction false} CleanParts<G>(w: World<G>, readings: seq<Reading>)
    requires Clean(w, readings) && readings != []
    ensures CleanPath(w, readings[0].path) && Clean(w, readings[1..])
  {
    hide CleanPath;
  }

  // ----- splitting a path at a mark -----

  function Length(readings: seq<Reading>): nat {
    if readings == [] then 0 else |readings[0].path| + Length(readings[1..])
  }

  lemma {:induction false} LengthAppend(a: seq<Reading>, b: seq<Reading>)
    ensures Length(a + b) == Length(a) + Length(b)
  {
    if a == [] {
      assert a + b == b;
    } else {
      LengthAppend(a[1..], b);
      assert (a + b)[1..] == a[1..] + b;
    }
  }

  lemma {:induction false} JoinSplitPart(front: seq<string>, r: string, s: string, back: seq<string>)
    ensures Join(front + [r + ";" + s] + back, ';') == Join(front + [r, s] + back, ';')
  {
    var one, two := front + [r + ";" + s] + back, front + [r, s] + back;
    if front == [] {
      assert two[1..] == [s] + back;
      if back == [] {
        assert one == [r + ";" + s] && two[1..] == [s];
      } else {
        assert one[1..] == back && two[1..][1..] == back;
        assert one[0] == r + ";" + s && two[0] == r && two[1..][0] == s;
        assert r + ";" + s + [';'] + Join(back, ';') == r + [';'] + (s + [';'] + Join(back, ';'));
      }
    } else {
      JoinSplitPart(front[1..], r, s, back);
      assert one[1..] == front[1..] + [r + ";" + s] + back && two[1..] == front[1..] + [r, s] + back;
    }
  }

  /** A path with a mark in it reads as two documents, under the same signature. */
  lemma {:induction false} SplitReading<G>(w: World<G>, a: seq<Reading>, i: nat, bytes: Bytes)
    returns (b: seq<Reading>)
    requires i < |a| && Contains(a[i].path, Mark(w, bytes))
    ensures Signature(w, b) == Signature(w, a) && Length(b) < Length(a)
  {
    hide Contains, Signature, RevisionOf, Join, Length;
    var left, right := CutAtMark(w, a[i], bytes);
    b := a[..i] + [left, right] + a[i + 1..];
    SameParts(w, a, i, left, right);
    JoinSplitPart(Revisions(w, a[..i]), RevisionOf(w, left), RevisionOf(w, right), Revisions(w, a[i + 1..]));
    SignatureIs(w, a);
    SignatureIs(w, b);
    ShorterParts(a, i, left, right);
  }

  lemma {:induction false} CutAtMark<G>(w: World<G>, r: Reading, bytes: Bytes) returns (left: Reading, right: Reading)
    requires Contains(r.path, Mark(w, bytes))
    ensures RevisionOf(w, r) == RevisionOf(w, left) + ";" + RevisionOf(w, right)
    ensures |left.path| + |right.path| < |r.path|
  {
    var path, mark := r.path, Mark(w, bytes);
    var k :| 0 <= k <= |path| && StartsWith(path[k..], mark);
    left, right := Reading(path[..k], bytes), Reading(path[k + |mark|..], r.bytes);
    var tail := path[k + |mark|..];
    PathAround(path, mark, k);
    AroundMark(path[..k], w.revision(bytes), tail, w.revision(r.bytes));
  }

  lemma {:induction false} PathAround(path: string, mark: string, k: nat)
    requires k <= |path| && StartsWith(path[k..], mark)
    ensures k + |mark| <= |path| && path == path[..k] + mark + path[k + |mark|..]
  {
    assert path[k..][..|mark|] == path[k..k + |mark|];
  }

  lemma {:induction false} AroundMark(head: string, here: string, tail: string, last: string)
    ensures head + ("=" + here + ";") + tail + "=" + last == head + "=" + here + ";" + (tail + "=" + last)
  {
  }

  lemma {:induction false} SignatureIs<G>(w: World<G>, readings: seq<Reading>)
    requires readings != []
    ensures Signature(w, readings) == Join(Revisions(w, readings), ';')
  {
  }

  lemma {:induction false} ShorterParts(a: seq<Reading>, i: nat, left: Reading, right: Reading)
    requires i < |a| && |left.path| + |right.path| < |a[i].path|
    ensures Length(a[..i] + [left, right] + a[i + 1..]) < Length(a)
  {
    LengthAppend(a[..i], [a[i]]);
    LengthAppend(a[..i] + [a[i]], a[i + 1..]);
    LengthAppend(a[..i], [left, right]);
    LengthAppend(a[..i] + [left, right], a[i + 1..]);
    assert a == a[..i] + [a[i]] + a[i + 1..];
    assert Length([a[i]]) == |a[i].path| && [left, right][1..] == [right];
    assert Length([right]) == |right.path|;
  }

  lemma {:induction false} SameParts<G>(w: World<G>, a: seq<Reading>, i: nat, left: Reading, right: Reading)
    requires i < |a|
    ensures var front, back := Revisions(w, a[..i]), Revisions(w, a[i + 1..]);
            && Revisions(w, a) == front + [RevisionOf(w, a[i])] + back
            && Revisions(w, a[..i] + [left, right] + a[i + 1..]) ==
               front + [RevisionOf(w, left), RevisionOf(w, right)] + back
  {
    hide RevisionOf;
  }

  /** The clean list with the signature of `a`: `a` itself, or `a` split at every mark. */
  lemma {:induction false} CleanForm<G(!new)>(w: World<G>, a: seq<Reading>) returns (b: seq<Reading>)
    requires Faithful(w)
    ensures Clean(w, b) && Signature(w, b) == Signature(w, a)
    decreases Length(a)
  {
    hide Signature, Contains, Mark;
    if Clean(w, a) {
      b := a;
    } else {
      var i :| 0 <= i < |a| && !CleanPath(w, a[i].path);
      var bytes :| Contains(a[i].path, Mark(w, bytes));
      b := SplitReading(w, a, i, bytes);
      b := CleanForm(w, b);
    }
  }

  /** A list is the only clean one with its signature if and only if it is clean. */
  lemma {:induction false} SignatureExactly<G(!new)>(w: World<G>, a: seq<Reading>)
    requires Faithful(w)
    ensures Clean(w, a) <==> forall b | Clean(w, b) && Signature(w, b) == Signature(w, a) :: b == a
  {
    hide Signature, Clean;
    if Clean(w, a) {
      forall b | Clean(w, b) && Signature(w, b) == Signature(w, a)
        ensures b == a
      {
        SignatureInjective(w, a, b);
      }
    } else {
      var b := CleanForm(w, a);
      assert b != a;
    }
  }

  // ----- two projects, one key -----

  /** Documents are told by their extension. */
  function KindOfPath(path: Path): Option<DocumentKind> {
    var parts := Split(DocumentName(path), '.');
    if |parts| < 2 || (|parts| == 2 && parts[0] == "") then None
    else if parts[|parts| - 1] == "kicad_sch" then Some(Schematic)
    else if parts[|parts| - 1] == "kicad_pcb" then Some(Board)
    else None
  }

  const R1: Item := Item("symbol", "R1", "R1", map[])

  function OneSymbol(): ItemSet {
    map[Identity("symbol", "R1") := R1]
  }

  /** Every document holds the one symbol, and the graph is what the documents say. */
  function SmallWorld(revision: Bytes -> string): World<seq<Document>> {
    World(revision, path => KindOfPath(path), (_, _) => Some(OneSymbol()), docs => docs)
  }

  /** A path with a mark in it: two readings, one key, and the second call is handed the first one's
      graph, which has lost a sheet. */
  lemma {:induction false} SeparatorsInPathsCollide(
      revision: Bytes -> string, x: Bytes, y: Bytes, c: Cache<(Path, string), seq<Document>>)
    requires Bounded(c) && Faithful(SmallWorld(revision))
    ensures var w, sheet := SmallWorld(revision), Graphs.Triple("s.kicad_sch", "symbol", "R1");
            var a := [Reading("/proj/s.kicad_sch" + Mark(w, x) + "/proj/t.kicad_sch", y)];
            var b := [Reading("/proj/s.kicad_sch", x), Reading("/proj/t.kicad_sch", y)];
            var cached := Remembered(c, ("/proj", Signature(w, a)), FromScratch(w, a));
            && w.kindOf(a[0].path) == w.kindOf(b[0].path) == w.kindOf(b[1].path) == Some(Schematic)
            && Lookup(cached, ("/proj", Signature(w, b))) == Some(FromScratch(w, a))
            && Graphs.Current(FromScratch(w, b), sheet) == Some(R1)
            && Graphs.Current(FromScratch(w, a), sheet) == None
  {
    hide *;
    var w, s, t := SmallWorld(revision), "/proj/s.kicad_sch", "/proj/t.kicad_sch";
    var a, b := [Reading(s + Mark(w, x) + t, y)], [Reading(s, x), Reading(t, y)];
    OneSignature(w, s, x, t, y);
    RememberedKeeps(c, ("/proj", Signature(w, a)), FromScratch(w, a));
    LookupIs(Remembered(c, ("/proj", Signature(w, a)), FromScratch(w, a)), ("/proj", Signature(w, b)));
    SheetNames(Mark(w, x));
    TwoSheets(revision, a, b);
  }

  lemma {:induction false} SheetNames(mark: string)
    ensures var s, t := "/proj/s.kicad_sch", "/proj/t.kicad_sch";
            && DocumentName(s) == "s.kicad_sch" && KindOfPath(s) == Some(Schematic)
            && DocumentName(t) == "t.kicad_sch" && KindOfPath(t) == Some(Schematic)
            && DocumentName(s + mark + t) == "t.kicad_sch" && KindOfPath(s + mark + t) == Some(Schematic)
  {
    hide *;
    var s, t := "/proj/s.kicad_sch", "/proj/t.kicad_sch";
    SheetPath("/proj", "s");
    SheetPath("/proj", "t");
    SheetPath(s + mark + "/proj", "t");
    assert "/proj" + "/" + "s" + ".kicad_sch" == s && "/proj" + "/" + "t" + ".kicad_sch" == t;
    assert s + mark + "/proj" + "/" + "t" + ".kicad_sch" == s + mark + t;
    assert "s" + ".kicad_sch" == "s.kicad_sch" && "t" + ".kicad_sch" == "t.kicad_sch";
  }

  lemma {:induction false} LookupIs<K, V>(c: Cache<K, V>, key: K)
    ensures key in c.entries ==> Lookup(c, key) == Some(c.entries[key])
  {
  }

  lemma {:induction false} OneSignature<G>(w: World<G>, s: Path, x: Bytes, t: Path, y: Bytes)
    ensures Signature(w, [Reading(s + Mark(w, x) + t, y)]) == Signature(w, [Reading(s, x), Reading(t, y)])
  {
    var a, b := [Reading(s + Mark(w, x) + t, y)], [Reading(s, x), Reading(t, y)];
    assert Revisions(w, b)[1..] == [RevisionOf(w, b[1])];
    assert Join(Revisions(w, b)[1..], ';') == RevisionOf(w, b[1]);
    assert Signature(w, b) == RevisionOf(w, b[0]) + [';'] + RevisionOf(w, b[1]);
    assert Signature(w, a) == RevisionOf(w, a[0]);
  }

  lemma {:induction false} SheetPath(dir: string, name: string)
    requires name == "s" || name == "t"
    ensures var path := dir + "/" + name + ".kicad_sch";
            DocumentName(path) == name + ".kicad_sch" && KindOfPath(path) == Some(Schematic)
  {
    hide KindOfPath, Split;
    var file := name + ".kicad_sch";
    assert '/' !in file;
    SplitLast(dir, file, '/');
    assert dir + ['/'] + file == dir + "/" + name + ".kicad_sch";
    SheetFile(dir + "/" + name + ".kicad_sch", name);
  }

  lemma {:induction false} SheetFile(path: Path, name: string)
    requires (name == "s" || name == "t") && DocumentName(path) == name + ".kicad_sch"
    ensures KindOfPath(path) == Some(Schematic)
  {
    hide Split, DocumentName;
    var file := name + ".kicad_sch";
    assert '.' !in "kicad_sch";
    SplitLast(name, "kicad_sch", '.');
    assert name + ['.'] + "kicad_sch" == file;
    SplitPrepend(name, ".kicad_sch", '.');
    assert Split(file, '.')[0] == name + Split(".kicad_sch", '.')[0];
  }

  lemma {:induction false} TwoSheets(revision: Bytes -> string, a: seq<Reading>, b: seq<Reading>)
    requires |a| == 1 && |b| == 2
    requires DocumentName(a[0].path) == "t.kicad_sch" && KindOfPath(a[0].path) == Some(Schematic)
    requires DocumentName(b[0].path) == "s.kicad_sch" && KindOfPath(b[0].path) == Some(Schematic)
    requires DocumentName(b[1].path) == "t.kicad_sch" && KindOfPath(b[1].path) == Some(Schematic)
    ensures var w, sheet := SmallWorld(revision), Graphs.Triple("s.kicad_sch", "symbol", "R1");
            && w.kindOf(a[0].path) == w.kindOf(b[0].path) == w.kindOf(b[1].path) == Some(Schematic)
            && Graphs.Current(FromScratch(w, b), sheet) == Some(R1)
            && Graphs.Current(FromScratch(w, a), sheet) == None
  {
    hide DocumentName, KindOfPath;
    var w, sheet := SmallWorld(revision), Graphs.Triple("s.kicad_sch", "symbol", "R1");
    var s, t := Graphs.Document("s.kicad_sch", OneSymbol()), Graphs.Document("t.kicad_sch", OneSymbol());
    assert a[..0] == [] && b[..1][..0] == [] && b[..1][0] == b[0];
    assert Documents(w, b[..1]) == [s];
    assert FromScratch(w, a) == [t] && FromScratch(w, b) == [s, t];
    assert "s.kicad_sch"[0] != "t.kicad_sch"[0];
    assert [t][..0] == [] && [s, t][..1] == [s];
    assert Graphs.IdOf(sheet) == Identity("symbol", "R1");
    assert Graphs.Current([s], sheet) == Some(R1);
  }

  /** Two sheets in two directories are one document name. */
  lemma {:induction false} DirectoriesAreForgotten(dir1: string, dir2: string, name: string)
    requires '/' !in name
    ensures DocumentName(dir1 + "/" + name) == DocumentName(dir2 + "/" + name) == name
  {
    SplitLast(dir1, name, '/');
    SplitLast(dir2, name, '/');
    assert dir1 + "/" + name == dir1 + ['/'] + name;
    assert dir2 + "/" + name == dir2 + ['/'] + name;
  }

  // ----- what a project's index answers -----

  /** The document that a reading gives holds `item` at `t`. */
  predicate HoldsAt<G>(w: World<G>, r: Reading, t: Graphs.Triple, item: Item) {
    && DocumentName(r.path) == t.document && Extraction(w, r).Some?
    && Graphs.IdOf(t) in Extraction(w, r).value && Extraction(w, r).value[Graphs.IdOf(t)] == item
  }

  ghost predicate SomeHolds<G>(w: World<G>, readings: seq<Reading>, t: Graphs.Triple, item: Item) {
    exists i | 0 <= i < |readings| :: HoldsAt(w, readings[i], t, item)
  }

  /** What the last document of that name to hold `t` holds there. */
  function LastHeld<G>(w: World<G>, readings: seq<Reading>, t: Graphs.Triple): Option<Item> {
    if readings == [] then None
    else
      var r := readings[|readings| - 1];
      if DocumentName(r.path) == t.document && Extraction(w, r).Some? && Graphs.IdOf(t) in Extraction(w, r).value
      then Some(Extraction(w, r).value[Graphs.IdOf(t)])
      else LastHeld(w, readings[..|readings| - 1], t)
  }

  /** Whatever a file holds is still true of the item that the last file of its name puts in its place. */
  ghost predicate NoneForgotten<G>(
      w: World<G>, readings: seq<Reading>, b: Graphs.Builder, render: Attr -> string)
  {
    forall t, item | SomeHolds(w, readings, t, item) && LastHeld(w, readings, t).Some? ::
      GraphQueries.Outlived(b, render, item, LastHeld(w, readings, t).value)
  }

  lemma {:induction false} DocumentsHold<G>(w: World<G>, readings: seq<Reading>, t: Graphs.Triple, item: Item)
    ensures Graphs.Seen(Documents(w, readings), t, item) <==> SomeHolds(w, readings, t, item)
    ensures Graphs.Current(Documents(w, readings), t) == LastHeld(w, readings, t)
  {
    hide DocumentName, Extraction;
    if readings != [] {
      var init, r := readings[..|readings| - 1], readings[|readings| - 1];
      DocumentsHold(w, init, t, item);
      var docs, before := Documents(w, readings), Documents(w, init);
      assert SomeHolds(w, readings, t, item) <==> SomeHolds(w, init, t, item) || HoldsAt(w, r, t, item) by {
        assert forall i | 0 <= i < |init| :: readings[i] == init[i];
      }
      if Extraction(w, r).Some? {
        var d := Graphs.Document(DocumentName(r.path), Extraction(w, r).value);
        assert docs == before + [d] && docs[..|before|] == before;
        assert Graphs.Holds(docs[|before|], t, item) <==> HoldsAt(w, r, t, item);
        assert forall e | 0 <= e < |before| :: docs[e] == before[e];
      }
    }
  }

  /** A project's queries are answered as a scan over its items would be if and only if no file of a name
      used twice holds anything untrue of what the last file of that name puts in its place. */
  lemma {:induction false} ProjectAgreesExactly<G>(
      w: World<G>, readings: seq<Reading>, g: Graphs.Graph, b: Graphs.Builder, render: Attr -> string)
    requires b.documents == Documents(w, readings) && Graphs.Indexed(g, b, render)
    ensures GraphQueries.Agrees(g, render) <==> NoneForgotten(w, readings, b, render)
  {
    hide Graphs.Indexed, Graphs.Seen, Graphs.Current, SomeHolds, LastHeld, Documents;
    GraphQueries.AgreesExactly(g, b, render);
    forall t, item
      ensures Graphs.Seen(b.documents, t, item) <==> SomeHolds(w, readings, t, item)
      ensures Graphs.Current(b.documents, t) == LastHeld(w, readings, t)
    {
      DocumentsHold(w, readings, t, item);
    }
  }

  /** Files with names of their own are answered as a scan would be. */
  lemma {:induction false} OwnNamesAgree<G>(
      w: World<G>, readings: seq<Reading>, g: Graphs.Graph, b: Graphs.Builder, render: Attr -> string)
    requires b.documents == Documents(w, readings) && Graphs.Indexed(g, b, render)
    requires forall i, j | 0 <= i < j < |readings| ::
               DocumentName(readings[i].path) != DocumentName(readings[j].path)
    ensures GraphQueries.Agrees(g, render)
  {
    hide Graphs.Indexed;
    ProjectAgreesExactly(w, readings, g, b, render);
    forall t, item | SomeHolds(w, readings, t, item) && LastHeld(w, readings, t).Some?
      ensures LastHeld(w, readings, t).value == item
    {
      LastHolds(w, readings, t);
      var i :| 0 <= i < |readings| && HoldsAt(w, readings[i], t, item);
      var j :| 0 <= j < |readings| && HoldsAt(w, readings[j], t, LastHeld(w, readings, t).value);
      assert i == j;
    }
  }

  lemma {:induction false} LastHolds<G>(w: World<G>, readings: seq<Reading>, t: Graphs.Triple)
    ensures LastHeld(w, readings, t).Some? ==> SomeHolds(w, readings, t, LastHeld(w, readings, t).value)
  {
    hide DocumentName, Extraction;
    if readings != [] {
      var init, r := readings[..|readings| - 1], readings[|readings| - 1];
      LastHolds(w, init, t);
      if LastHeld(w, readings, t).Some? {
        var item := LastHeld(w, readings, t).value;
        if !HoldsAt(w, r, t, item) {
          var i :| 0 <= i < |init| && HoldsAt(w, init[i], t, item);
          assert HoldsAt(w, readings[i], t, item);
        } else {
          assert HoldsAt(w, readings[|init|], t, item);
        }
      }
    }
  }

  /** Two sheets of one file name in two directories, an item in both under two labels: some query is
      answered otherwise than a scan would. */
  lemma {:induction false} SharedNameDisagrees<G>(
      w: World<G>, dir1: string, x: Bytes, dir2: string, y: Bytes, name: string, id: Identity,
      g: Graphs.Graph, b: Graphs.Builder, render: Attr -> string)
    requires '/' !in name
    requires var one, two := Reading(dir1 + "/" + name, x), Reading(dir2 + "/" + name, y);
             && b.documents == Documents(w, [one, two]) && Graphs.Indexed(g, b, render)
             && Extraction(w, one).Some? && Extraction(w, two).Some?
             && id in Extraction(w, one).value && id in Extraction(w, two).value
             && Extraction(w, one).value[id].title != Extraction(w, two).value[id].title
    ensures !GraphQueries.Agrees(g, render)
  {
    hide Graphs.Indexed, Extraction;
    var one, two := Reading(dir1 + "/" + name, x), Reading(dir2 + "/" + name, y);
    DirectoriesAreForgotten(dir1, dir2, name);
    ProjectAgreesExactly(w, [one, two], g, b, render);
    hide DocumentName;
    var t := Graphs.Triple(name, id.kind, id.key);
    var was, now := Extraction(w, one).value[id], Extraction(w, two).value[id];
    assert Graphs.IdOf(t) == id;
    assert HoldsAt(w, [one, two][0], t, was);
    assert LastHeld(w, [one, two], t) == Some(now);
    assert !GraphQueries.Outlived(b, render, was, now);
  }

  // ----- the store's own state -----

  datatype Caches<G> = Caches(documents: Cache<(Path, string), Option<ItemSet>>, graphs: Cache<(Path, string), G>)

  /** Every entry is what computing it from its key's contents gives. */
  ghost predicate Coherent<G(!new)>(w: World<G>, c: Caches<G>) {
    && Bounded(c.documents) && Bounded(c.graphs)
    && (forall path, bytes | (path, w.revision(bytes)) in c.documents.entries ::
          c.documents.entries[(path, w.revision(bytes))] == Extraction(w, Reading(path, bytes)))
    && (forall dir, readings | Clean(w, readings) && (dir, Signature(w, readings)) in c.graphs.entries ::
          c.graphs.entries[(dir, Signature(w, readings))] == FromScratch(w, readings))
  }

  function StoreDocument<G>(w: World<G>, c: Caches<G>, r: Reading): Caches<G> {
    c.(documents := Remembered(c.documents, (r.path, w.revision(r.bytes)), Extraction(w, r)))
  }

  function StoreGraph<G>(w: World<G>, c: Caches<G>, dir: Path, readings: seq<Reading>, graph: G): Caches<G> {
    c.(graphs := Remembered(c.graphs, (dir, Signature(w, readings)), graph))
  }

  lemma {:induction false} StoreDocumentCoherent<G(!new)>(w: World<G>, c: Caches<G>, r: Reading)
    requires Faithful(w) && Coherent(w, c)
    ensures Coherent(w, StoreDocument(w, c, r))
  {
    hide Bounded, Remembered, Signature, Extraction;
    RememberedKeeps(c.documents, (r.path, w.revision(r.bytes)), Extraction(w, r));
  }

  lemma {:induction false} StoreGraphCoherent<G(!new)>(w: World<G>, c: Caches<G>, dir: Path, readings: seq<Reading>)
    requires Faithful(w) && Coherent(w, c) && Clean(w, readings)
    ensures Coherent(w, StoreGraph(w, c, dir, readings, FromScratch(w, readings)))
  {
    hide Bounded, Remembered, Signature, Extraction, FromScratch, Faithful, Clean;
    RememberedKeeps(c.graphs, (dir, Signature(w, readings)), FromScratch(w, readings));
    var next := StoreGraph(w, c, dir, readings, FromScratch(w, readings));
    forall d, other | Clean(w, other) && (d, Signature(w, other)) in next.graphs.entries
      ensures next.graphs.entries[(d, Signature(w, other))] == FromScratch(w, other)
    {
      if (d, Signature(w, other)) == (dir, Signature(w, readings)) {
        SignatureInjective(w, readings, other);
      }
    }
  }

  class GraphStore<G(!new)> {
    const w: World<G>
    var caches: Caches<G>

    constructor (w: World<G>)
      ensures this.w == w && Coherent(w, caches)
    {
      this.w := w;
      caches := Caches(Cache(map[], []), Cache(map[], []));
    }

    /** One document's extraction, from the cache or computed and stored. */
    method ExtractionOf(r: Reading) returns (extraction: Option<ItemSet>)
      requires Faithful(w) && Coherent(w, caches)
      modifies this
      ensures Coherent(w, caches) && extraction == Extraction(w, r) && caches.graphs == old(caches.graphs)
    {
      hide Bounded, Remembered, Signature, Extraction, FromScratch;
      var key := (r.path, w.revision(r.bytes));
      if key in caches.documents.entries {
        return caches.documents.entries[key];
      }
      extraction := Extraction(w, r);
      StoreDocumentCoherent(w, caches, r);
      var documents := Remember(caches.documents, key, extraction);
      caches := caches.(documents := documents);
    }

    /** The graph of a project whose documents read as `readings`, cached or built. */
    method Get(dir: Path, readings: seq<Reading>) returns (graph: G)
      requires Faithful(w) && Coherent(w, caches) && Clean(w, readings)
      modifies this
      ensures Coherent(w, caches) && graph == FromScratch(w, readings)
    {
      hide Bounded, Remembered, Signature, Extraction, Faithful, Clean;
      var key := (dir, Signature(w, readings));
      if key in caches.graphs.entries {
        return caches.graphs.entries[key];
      }
      var docs: seq<Document> := [];
      for i := 0 to |readings|
        invariant Coherent(w, caches) && docs == Documents(w, readings[..i])
      {
        var extraction := ExtractionOf(readings[i]);
        docs := WithDocument(w, docs, readings[i].path, extraction);
        OneMoreDocument(w, readings, i);
      }
      assert readings[..|readings|] == readings;
      graph := w.build(docs);
      StoreGraphCoherent(w, caches, dir, readings);
      var graphs := Remember(caches.graphs, key, graph);
      caches := caches.(graphs := graphs);
    }
  }

  lemma {:induction false} OneMoreDocument<G>(w: World<G>, readings: seq<Reading>, i: nat)
    requires i < |readings|
    ensures Documents(w, readings[..i + 1]) ==
              WithDocument(w, Documents(w, readings[..i]), readings[i].path, Extraction(w, readings[i]))
  {
    TakeOneMore(readings, i);
    assert readings[..i + 1][..i] == readings[..i];
  }

  // ----- many calls at once -----

  /** Where a call stands.  Files are read outside the lock, one at a time; every other step is one
      locked section. */
  datatype Call<G> =
    | Gathering(dir: Path, todo: seq<Path>, readings: seq<Reading>)
    | Failed
    | Consulting(dir: Path, readings: seq<Reading>)
    | Extracting(dir: Path, readings: seq<Reading>, done: nat, docs: seq<Document>)
    | Storing(dir: Path, readings: seq<Reading>, done: nat, docs: seq<Document>)
    | Returned(dir: Path, readings: seq<Reading>, graph: G)

  datatype State<G> = State(files: map<Path, Bytes>, caches: Caches<G>, calls: map<nat, Call<G>>)

  datatype Step =
    | Edit(path: Path, content: Option<Bytes>)
    | Begin(id: nat, dir: Path, documents: seq<Path>)
    | ReadNext(id: nat)
    | Consult(id: nat)
    | LookDocument(id: nat)
    | PutDocument(id: nat)
    | PutGraph(id: nat)

  predicate ReadingLess(a: Reading, b: Reading) {
    PathLess(Split(a.path, '/'), Split(b.path, '/'))
  }

  function SortReadings(readings: seq<Reading>): seq<Reading> {
    Sort(readings, (a: Reading, b: Reading) => ReadingLess(a, b))
  }

  /** The state after a step; a step that is not enabled changes nothing. */
  function Next<G>(w: World<G>, s: State<G>, step: Step): State<G> {
    match step
    case Edit(path, content) =>
      s.(files := if content.Some? then s.files[path := content.value] else s.files - {path})
    case Begin(id, dir, documents) =>
      if id in s.calls then s else s.(calls := s.calls[id := Gathering(dir, documents, [])])
    case ReadNext(id) =>
      if id in s.calls && s.calls[id].Gathering?
      then s.(calls := s.calls[id := AfterReading(s.files, s.calls[id])])
      else s
    case Consult(id) =>
      if id in s.calls && s.calls[id].Consulting? then
        var c := s.calls[id];
        s.(calls := s.calls[id := match Lookup(s.caches.graphs, (c.dir, Signature(w, c.readings)))
                                  case Some(graph) => Returned(c.dir, c.readings, graph)
                                  case None => Extracting(c.dir, c.readings, 0, [])])
      else s
    case LookDocument(id) =>
      if id in s.calls && s.calls[id].Extracting? && s.calls[id].done < |s.calls[id].readings| then
        var c := s.calls[id];
        var r := c.readings[c.done];
        s.(calls := s.calls[id := match Lookup(s.caches.documents, (r.path, w.revision(r.bytes)))
                                  case Some(extraction) =>
                                    Extracting(c.dir, c.readings, c.done + 1,
                                               WithDocument(w, c.docs, r.path, extraction))
                                  case None => Storing(c.dir, c.readings, c.done, c.docs)])
      else s
    case PutDocument(id) =>
      if id in s.calls && s.calls[id].Storing? && s.calls[id].done < |s.calls[id].readings| then
        var c := s.calls[id];
        var r := c.readings[c.done];
        s.(caches := StoreDocument(w, s.caches, r),
           calls := s.calls[id := Extracting(c.dir, c.readings, c.done + 1,
                                             WithDocument(w, c.docs, r.path, Extraction(w, r)))])
      else s
    case PutGraph(id) =>
      if id in s.calls && s.calls[id].Extracting? && s.calls[id].done >= |s.calls[id].readings| then
        var c := s.calls[id];
        s.(caches := StoreGraph(w, s.caches, c.dir, c.readings, w.build(c.docs)),
           calls := s.calls[id := Returned(c.dir, c.readings, w.build(c.docs))])
      else s
  }

  function AfterReading<G>(files: map<Path, Bytes>, c: Call<G>): Call<G>
    requires c.Gathering?
  {
    if c.todo == [] then Consulting(c.dir, SortReadings(c.readings))
    else if c.todo[0] in files then Gathering(c.dir, c.todo[1..], c.readings + [Reading(c.todo[0], files[c.todo[0]])])
    else Failed
  }

  /** What holds of a call at each point; the graph it returns is the one its own readings give. */
  ghost predicate CallHolds<G(!new)>(w: World<G>, c: Call<G>) {
    match c
    case Gathering(dir, todo, readings) => Clean(w, readings) && CleanPaths(w, todo)
    case Failed => true
    case Consulting(dir, readings) => Clean(w, readings)
    case Extracting(dir, readings, done, docs) =>
      Clean(w, readings) && done <= |readings| && docs == Documents(w, readings[..done])
    case Storing(dir, readings, done, docs) =>
      Clean(w, readings) && done < |readings| && docs == Documents(w, readings[..done])
    case Returned(dir, readings, graph) => Clean(w, readings) && graph == FromScratch(w, readings)
  }

  ghost predicate CleanPaths<G>(w: World<G>, paths: seq<Path>) {
    forall i | 0 <= i < |paths| :: CleanPath(w, paths[i])
  }

  ghost predicate Consistent<G(!new)>(w: World<G>, s: State<G>) {
    Coherent(w, s.caches) && forall id | id in s.calls :: CallHolds(w, s.calls[id])
  }

  ghost predicate CleanStep<G>(w: World<G>, step: Step) {
    step.Begin? ==> CleanPaths(w, step.documents)
  }

  lemma {:induction false} SortedStaysClean<G>(w: World<G>, readings: seq<Reading>)
    requires Clean(w, readings)
    ensures Clean(w, SortReadings(readings))
  {
    hide CleanPath;
    SameMembers(readings, (a: Reading, b: Reading) => ReadingLess(a, b));
    forall i | 0 <= i < |SortReadings(readings)|
      ensures CleanPath(w, SortReadings(readings)[i].path)
    {
      assert SortReadings(readings)[i] in SortReadings(readings);
    }
  }

  lemma {:induction false} AfterReadingHolds<G(!new)>(w: World<G>, files: map<Path, Bytes>, c: Call<G>)
    requires c.Gathering? && CallHolds(w, c)
    ensures CallHolds(w, AfterReading(files, c))
  {
    hide CleanPath;
    SortedStaysClean(w, c.readings);
  }

  lemma {:induction false} StepKeeps<G(!new)>(w: World<G>, s: State<G>, step: Step)
    requires Faithful(w) && Consistent(w, s) && CleanStep(w, step)
    ensures Consistent(w, Next(w, s, step))
  {
    hide Coherent, Faithful, StoreDocument, StoreGraph, Extraction, FromScratch, Signature, Clean, Documents,
        WithDocument, AfterReading;
    match step
    case Edit(_, _) =>
    case Begin(_, _, documents) =>
      NothingIsClean(w);
    case ReadNext(id) =>
      if id in s.calls && s.calls[id].Gathering? {
        AfterReadingHolds(w, s.files, s.calls[id]);
      }
    case Consult(id) =>
      if id in s.calls && s.calls[id].Consulting? {
        ConsultHolds(w, s.caches, s.calls[id].dir, s.calls[id].readings);
      }
    case LookDocument(id) =>
      if id in s.calls && s.calls[id].Extracting? && s.calls[id].done < |s.calls[id].readings| {
        var c := s.calls[id];
        LookHolds(w, s.caches, c.readings[c.done]);
        OneMoreDocument(w, c.readings, c.done);
      }
    case PutDocument(id) =>
      if id in s.calls && s.calls[id].Storing? && s.calls[id].done < |s.calls[id].readings| {
        var c := s.calls[id];
        StoreDocumentCoherent(w, s.caches, c.readings[c.done]);
        OneMoreDocument(w, c.readings, c.done);
      }
    case PutGraph(id) =>
      if id in s.calls && s.calls[id].Extracting? && s.calls[id].done >= |s.calls[id].readings| {
        var c := s.calls[id];
        assert c.readings[..c.done] == c.readings;
        assert FromScratch(w, c.readings) == w.build(c.docs) by { BuiltFrom(w, c.readings); }
        StoreGraphCoherent(w, s.caches, c.dir, c.readings);
      }
  }

  lemma {:induction false} NothingIsClean<G>(w: World<G>)
    ensures Clean(w, [])
  {
  }

  lemma {:induction false} BuiltFrom<G>(w: World<G>, readings: seq<Reading>)
    ensures FromScratch(w, readings) == w.build(Documents(w, readings))
  {
  }

  lemma {:induction false} ConsultHolds<G(!new)>(w: World<G>, c: Caches<G>, dir: Path, readings: seq<Reading>)
    requires Coherent(w, c) && Clean(w, readings)
    ensures var found := Lookup(c.graphs, (dir, Signature(w, readings)));
            found.Some? ==> found.value == FromScratch(w, readings)
    ensures Documents(w, readings[..0]) == []
  {
  }

  lemma {:induction false} LookHolds<G(!new)>(w: World<G>, c: Caches<G>, r: Reading)
    requires Coherent(w, c)
    ensures var found := Lookup(c.documents, (r.path, w.revision(r.bytes)));
            found.Some? ==> found.value == Extraction(w, r)
  {
  }

  function Run<G>(w: World<G>, s: State<G>, steps: seq<Step>): State<G> {
    if steps == [] then s else Next(w, Run(w, s, steps[..|steps| - 1]), steps[|steps| - 1])
  }

  ghost predicate Initial<G>(s: State<G>) {
    s.caches == Caches(Cache(map[], []), Cache(map[], [])) && s.calls == map[]
  }

  /** Over every history of edits and interleaved calls: the caches stay bounded and coherent, and
      what a call returns is what building from the bytes it read would have given. */
  lemma {:induction false} EveryRunIsCoherent<G(!new)>(w: World<G>, s: State<G>, steps: seq<Step>)
    requires Faithful(w) && Initial(s) && forall i | 0 <= i < |steps| :: CleanStep(w, steps[i])
    ensures Consistent(w, Run(w, s, steps))
    ensures forall id | id in Run(w, s, steps).calls && Run(w, s, steps).calls[id].Returned? ::
              Run(w, s, steps).calls[id].graph == FromScratch(w, Run(w, s, steps).calls[id].readings)
    ensures |Run(w, s, steps).caches.documents.entries| <= 64 && |Run(w, s, steps).caches.graphs.entries| <= 64
  {
    if steps == [] {
      EmptyCoherent(w);
    } else {
      EveryRunIsCoherent(w, s, steps[..|steps| - 1]);
      StepKeeps(w, Run(w, s, steps[..|steps| - 1]), steps[|steps| - 1]);
    }
    EntriesBounded(Run(w, s, steps).caches.documents);
    EntriesBounded(Run(w, s, steps).caches.graphs);
    assert forall id | id in Run(w, s, steps).calls :: CallHolds(w, Run(w, s, steps).calls[id]);
  }

  lemma {:induction false} EmptyCoherent<G(!new)>(w: World<G>)
    ensures Coherent(w, Caches(Cache(map[], []), Cache(map[], [])))
  {
  }

  lemma {:induction false} EntriesBounded<K, V>(c: Cache<K, V>)
    requires Bounded(c)
    ensures |c.entries| <= CACHE_CAPACITY
  {
    ListingLength(c.order);
    assert c.entries.Keys == set k | k in c.order;
    assert |c.entries| == |c.entries.Keys|;
  }
}
