/** Where the images of one run are written, and when they can be read back from there. */
module JournalImages {
  import opened Wrappers
  import opened Text
  import opened Disks
  import opened JournalPaths
  import opened Journals

  // ----- inside the set -----

  /** Every document's tail stays below the directory it is joined to. */
  predicate StaysInside(docs: seq<RecordedDoc>) {
    forall i | 0 <= i < |docs| :: DocumentPath(docs[i].path) && Stays(Tail(docs, i))
  }

  lemma {:induction false} TailIsDocument(docs: seq<RecordedDoc>, i: nat)
    requires i < |docs| && DocumentPath(docs[i].path)
    ensures var tail := Tail(docs, i);
            && DocumentPath(tail) && (!Absolute(tail) ==> PartPath(tail)) && Added(tail) != []
            && (Absolute(tail) <==> CommonRoot(PathsOf(docs)).None? && Absolute(docs[i].path))
  {
    assert PathsOf(docs)[i] in PathsOf(docs);
    TailShape(PathsOf(docs), docs[i].path);
    var tail := Tail(docs, i);
    EndsInName(if Absolute(tail) then tail[1..] else tail);
  }

  lemma {:induction false} StaysAt(docs: seq<RecordedDoc>, i: nat)
    requires StaysInside(docs) && i < |docs|
    ensures DocumentPath(docs[i].path) && Stays(Tail(docs, i))
  {
  }

  lemma {:induction false} ImageAtIs(dir: Path, id: string, docs: seq<RecordedDoc>, i: nat, side: ImageSide)
    requires Absolute(dir) && i < |docs| && DocumentPath(docs[i].path) && Stays(Tail(docs, i))
    ensures ImageAt(dir, id, docs, i, side) == SideDir(id, side) + Added(Tail(docs, i))
    ensures Within(SetDir(id), ImageAt(dir, id, docs, i, side))
  {
    TailIsDocument(docs, i);
    LandingIs(dir, SideDir(id, side), Tail(docs, i));
    assert (SideDir(id, side) + Added(Tail(docs, i)))[..2] == SetDir(id);
  }

  /** Exactly when an image lands inside its set: enough of the set's directory survives the ".." of
      the tail, or the names after them lead back into it.  An absolute tail survives nothing. */
  lemma {:induction false} ImageStaysInsideExactly(
      dir: Path, id: string, docs: seq<RecordedDoc>, i: nat, side: ImageSide)
    requires Absolute(dir) && Plain(id) && i < |docs| && DocumentPath(docs[i].path)
    ensures var tail, set_ := Tail(docs, i), dir + SetDir(id);
            var n := Floor(dir, SideDir(id, side), tail);
            && (Within(SetDir(id), ImageAt(dir, id, docs, i, side)) <==>
                n >= |set_| || (|Added(tail)| > |set_| - n && Added(tail)[..|set_| - n] == set_[n..]))
            && (n >= |set_| <==> !Absolute(tail) && Climb(tail) <= 1)
            && (Absolute(tail) <==> CommonRoot(PathsOf(docs)).None? && Absolute(docs[i].path))
  {
    hide *;
    TailIsDocument(docs, i);
    SideDirs(dir, id, side);
    FloorIs(dir, SideDir(id, side), Tail(docs, i));
    ImageAtDef(dir, id, docs, i, side);
    LandsBelowExactly(dir, SetDir(id), SideDir(id, side), Tail(docs, i));
  }

  lemma {:induction false} SideDirs(dir: Path, id: string, side: ImageSide)
    requires Plain(id)
    ensures PlainPath(SideDir(id, side)) && [] < SetDir(id) <= SideDir(id, side)
    ensures |SetDir(id)| == 2 && |SideDir(id, side)| == 3
  {
    assert Plain("images") && Plain("pre") && Plain("post");
  }

  lemma {:induction false} FloorIs(dir: Path, base: Path, tail: Path)
    requires Absolute(dir) && |base| == 3
    ensures Floor(dir, base, tail) >= |dir| + 2 <==> !Absolute(tail) && Climb(tail) <= 1
  {
  }

  lemma {:induction false} ImageAtDef(dir: Path, id: string, docs: seq<RecordedDoc>, i: nat, side: ImageSide)
    requires i < |docs|
    ensures ImageAt(dir, id, docs, i, side) == Landing(dir, SideDir(id, side), Tail(docs, i))
  {
  }

  /** Without ".." the only way out is an absolute path that no root is shared with. */
  lemma {:induction false} PlainImageStaysExactly(
      dir: Path, id: string, docs: seq<RecordedDoc>, i: nat, side: ImageSide)
    requires Absolute(dir) && i < |docs| && DocumentPath(docs[i].path) && PlainPath(docs[i].path[1..])
    requires !Absolute(docs[i].path) ==> Plain(docs[i].path[0])
    ensures Stays(Tail(docs, i)) <==> CommonRoot(PathsOf(docs)).Some? || !Absolute(docs[i].path)
  {
    TailIsDocument(docs, i);
    var tail, p := Tail(docs, i), docs[i].path;
    if !Absolute(tail) {
      if CommonRoot(PathsOf(docs)).Some? {
        assert PathsOf(docs)[i] in PathsOf(docs);
        RootRebuilds(PathsOf(docs), p);
        var n := |CommonRoot(PathsOf(docs)).value|;
        assert tail == p[1..][n - 1..];
      } else {
        assert p == [p[0]] + p[1..];
      }
      PlainSettles(tail);
    }
  }

  lemma {:induction false} WriteSetStaysInside(dir: Path, id: string, docs: seq<RecordedDoc>, n: nat, p: Path)
    requires Absolute(dir) && StaysInside(docs)
    requires n <= |docs| && p in WriteSet(map[], dir, id, docs, n)
    ensures Within(SetDir(id), p)
  {
    hide ImageAt, Stays, Within, StaysInside, Tail, DocumentPath;
    if n > 0 {
      StaysAt(docs, n - 1);
      if p in WriteSet(map[], dir, id, docs, n - 1) {
        WriteSetStaysInside(dir, id, docs, n - 1, p);
      }
      ImageAtIs(dir, id, docs, n - 1, Pre);
      ImageAtIs(dir, id, docs, n - 1, Post);
    }
  }

  /** Writing over a disk is writing the set on its own, on top. */
  lemma {:induction false} WriteSetOver(
      files: Files, dir: Path, id: string, docs: seq<RecordedDoc>, n: nat, p: Path)
    requires n <= |docs|
    ensures var alone := WriteSet(map[], dir, id, docs, n);
            Same(WriteSet(files, dir, id, docs, n), if p in alone then alone else files, p)
  {
    hide ImageAt;
    if n > 0 {
      WriteSetOver(files, dir, id, docs, n - 1, p);
    }
  }

  predicate HasImages(docs: seq<RecordedDoc>) {
    HasSide(docs, Pre) || HasSide(docs, Post)
  }

  /** A set has a directory when it has images. */
  lemma {:induction false} WriteSetHasDir(files: Files, dir: Path, id: string, docs: seq<RecordedDoc>, n: nat)
    requires Absolute(dir) && StaysInside(docs) && n <= |docs|
    ensures IsDir(WriteSet(files, dir, id, docs, n), SetDir(id)) <==>
            IsDir(files, SetDir(id)) || HasImages(docs[..n])
  {
    hide *;
    if n == 0 {
      NoDocsNoImages(files, dir, id, docs);
    } else {
      StaysAt(docs, n - 1);
      WriteSetHasDir(files, dir, id, docs, n - 1);
      ImageAtIs(dir, id, docs, n - 1, Pre);
      ImageAtIs(dir, id, docs, n - 1, Post);
      var before := WriteSet(files, dir, id, docs, n - 1);
      var pre := WriteSide(before, ImageAt(dir, id, docs, n - 1, Pre), docs[n - 1].beforeBytes);
      WriteSideHasDir(before, SetDir(id), ImageAt(dir, id, docs, n - 1, Pre), docs[n - 1].beforeBytes);
      WriteSideHasDir(pre, SetDir(id), ImageAt(dir, id, docs, n - 1, Post), docs[n - 1].afterBytes);
      OneMoreDoc(files, dir, id, docs, n - 1);
    }
  }

  lemma {:induction false} NoDocsNoImages(files: Files, dir: Path, id: string, docs: seq<RecordedDoc>)
    ensures WriteSet(files, dir, id, docs, 0) == files && !HasImages(docs[..0])
  {
  }

  lemma {:induction false} OneMoreDoc(files: Files, dir: Path, id: string, docs: seq<RecordedDoc>, n: nat)
    requires n < |docs|
    ensures var before := WriteSet(files, dir, id, docs, n);
            var pre := WriteSide(before, ImageAt(dir, id, docs, n, Pre), docs[n].beforeBytes);
            WriteSet(files, dir, id, docs, n + 1) == WriteSide(pre, ImageAt(dir, id, docs, n, Post), docs[n].afterBytes)
    ensures HasImages(docs[..n + 1]) <==>
            HasImages(docs[..n]) || docs[n].beforeBytes.Some? || docs[n].afterBytes.Some?
  {
    hide ImageAt;
    var more, fewer := docs[..n + 1], docs[..n];
    assert more[n] == docs[n] && forall i | 0 <= i < n :: more[i] == fewer[i];
    assert SideOf(more[n], Pre) == docs[n].beforeBytes && SideOf(more[n], Post) == docs[n].afterBytes;
    forall side
      ensures HasSide(more, side) <==> HasSide(fewer, side) || SideOf(docs[n], side).Some?
    {
      if i :| 0 <= i < |fewer| && SideOf(fewer[i], side).Some? {
        assert SideOf(more[i], side).Some?;
      }
    }
  }

  lemma {:induction false} WriteSideHasDir(files: Files, dir: Path, at: Path, bytes: Option<Bytes>)
    requires Within(dir, at)
    ensures IsDir(WriteSide(files, at, bytes), dir) <==> IsDir(files, dir) || bytes.Some?
  {
    if bytes.Some? {
      assert at in WriteSide(files, at, bytes);
    }
  }

  // ----- reading back -----

  /** Where one image of one document is read from. */
  function ReadAt(dir: Path, id: string, docs: seq<RecordedDoc>, i: nat, side: ImageSide): Path
    requires i < |docs| && Tail(docs, i) != []
  {
    Landing(dir, SideDir(id, side), FromSlash(ToSlash(Tail(docs, i))))
  }

  ghost predicate TailsNamed(docs: seq<RecordedDoc>) {
    forall i | 0 <= i < |docs| :: Tail(docs, i) != []
  }

  /** Every image is read where it was written, and no two are written to one file. */
  ghost predicate OwnPlaces(dir: Path, id: string, docs: seq<RecordedDoc>)
    requires TailsNamed(docs)
  {
    && (forall i, side | 0 <= i < |docs| :: ReadAt(dir, id, docs, i, side) == ImageAt(dir, id, docs, i, side))
    && forall i, j, side, other | 0 <= i < |docs| && 0 <= j < |docs| && (i != j || side != other) ::
         ImageAt(dir, id, docs, i, side) != ImageAt(dir, id, docs, j, other)
  }

  /** Every image read from the set is the one recorded. */
  ghost predicate SetReads(dir: Path, id: string, docs: seq<RecordedDoc>)
    requires TailsNamed(docs)
  {
    forall i, side | 0 <= i < |docs| ::
      Lookup(WriteSet(map[], dir, id, docs, |docs|), ReadAt(dir, id, docs, i, side)) == SideOf(docs[i], side)
  }

  lemma {:induction false} WriteSetHolds(
      dir: Path, id: string, docs: seq<RecordedDoc>, n: nat, i: nat, side: ImageSide)
    requires TailsNamed(docs) && OwnPlaces(dir, id, docs) && i < |docs| && n <= |docs|
    ensures Lookup(WriteSet(map[], dir, id, docs, n), ImageAt(dir, id, docs, i, side)) ==
            if i < n then SideOf(docs[i], side) else None
  {
    hide ImageAt, ReadAt, Tail;
    if n > 0 {
      WriteSetHolds(dir, id, docs, n - 1, i, side);
      assert ImageAt(dir, id, docs, n - 1, Pre) != ImageAt(dir, id, docs, n - 1, Post);
    }
  }

  /** The same documents with one image and nothing else to write. */
  function Only(docs: seq<RecordedDoc>, i: nat, side: ImageSide): (out: seq<RecordedDoc>)
    requires i < |docs|
    ensures |out| == |docs| && PathsOf(out) == PathsOf(docs)
    ensures forall j, other | 0 <= j < |docs| ::
              SideOf(out[j], other) == if j == i && other == side then Some([]) else None
  {
    seq(|docs|, j requires 0 <= j < |docs| =>
      docs[j].(beforeBytes := if j == i && side == Pre then Some([]) else None,
               afterBytes := if j == i && side == Post then Some([]) else None))
  }

  lemma {:induction false} SamePlaces(
      dir: Path, id: string, docs: seq<RecordedDoc>, other: seq<RecordedDoc>, i: nat, side: ImageSide)
    requires PathsOf(other) == PathsOf(docs) && i < |docs|
    ensures |other| == |docs| && Tail(other, i) == Tail(docs, i)
    ensures ImageAt(dir, id, other, i, side) == ImageAt(dir, id, docs, i, side)
  {
    assert PathsOf(other)[i] == PathsOf(docs)[i];
  }

  lemma {:induction false} SameTailsNamed(docs: seq<RecordedDoc>, other: seq<RecordedDoc>)
    requires PathsOf(other) == PathsOf(docs) && TailsNamed(docs)
    ensures TailsNamed(other)
  {
    assert |other| == |docs|;
    forall i | 0 <= i < |other|
      ensures Tail(other, i) != []
    {
      SamePlaces([], "", docs, other, i, Pre);
    }
  }

  lemma {:induction false} OnlyWrites(dir: Path, id: string, docs: seq<RecordedDoc>, i: nat, side: ImageSide, n: nat)
    requires i < |docs| && n <= |docs|
    ensures var out := Only(docs, i, side);
            WriteSet(map[], dir, id, out, n) == if i < n then map[ImageAt(dir, id, out, i, side) := []] else map[]
  {
    hide ImageAt;
    if n > 0 {
      OnlyWrites(dir, id, docs, i, side, n - 1);
      var out := Only(docs, i, side);
      assert SideOf(out[n - 1], Pre) == out[n - 1].beforeBytes && SideOf(out[n - 1], Post) == out[n - 1].afterBytes;
    }
  }

  /** Whatever the bytes, the images of documents with these paths read back, if and only if every image
      has a place of its own and is read from there. */
  lemma {:induction false} ReadsBackExactly(dir: Path, id: string, docs: seq<RecordedDoc>)
    requires TailsNamed(docs)
    ensures OwnPlaces(dir, id, docs) <==>
            forall other | PathsOf(other) == PathsOf(docs) :: TailsNamed(other) && SetReads(dir, id, other)
  {
    forall other | PathsOf(other) == PathsOf(docs) && OwnPlaces(dir, id, docs)
      ensures TailsNamed(other) && SetReads(dir, id, other)
    {
      SameTailsNamed(docs, other);
      OwnPlacesRead(dir, id, docs, other);
    }
    if forall other | PathsOf(other) == PathsOf(docs) :: TailsNamed(other) && SetReads(dir, id, other) {
      forall i, side | 0 <= i < |docs|
        ensures ReadAt(dir, id, docs, i, side) == ImageAt(dir, id, docs, i, side)
        ensures forall j, other | 0 <= j < |docs| && (i != j || side != other) ::
                  ImageAt(dir, id, docs, i, side) != ReadAt(dir, id, docs, j, other)
      {
        SameTailsNamed(docs, Only(docs, i, side));
        assert SetReads(dir, id, Only(docs, i, side));
        OnlyReads(dir, id, docs, i, side);
      }
    }
  }

  lemma {:induction false} OwnPlacesRead(dir: Path, id: string, docs: seq<RecordedDoc>, other: seq<RecordedDoc>)
    requires TailsNamed(docs) && OwnPlaces(dir, id, docs) && PathsOf(other) == PathsOf(docs) && TailsNamed(other)
    ensures SetReads(dir, id, other)
  {
    hide ImageAt, Landing, Tail, WriteSet;
    assert |other| == |docs|;
    forall i, side | 0 <= i < |docs|
      ensures ImageAt(dir, id, other, i, side) == ImageAt(dir, id, docs, i, side) && Tail(other, i) == Tail(docs, i)
    {
      SamePlaces(dir, id, docs, other, i, side);
    }
    forall i, side | 0 <= i < |docs|
      ensures Lookup(WriteSet(map[], dir, id, other, |other|), ReadAt(dir, id, other, i, side)) ==
              SideOf(other[i], side)
    {
      assert ReadAt(dir, id, other, i, side) == ReadAt(dir, id, docs, i, side) == ImageAt(dir, id, other, i, side);
      WriteSetHolds(dir, id, other, |other|, i, side);
    }
  }

  /** What reading back a single image says about where the others are read. */
  lemma {:induction false} OnlyReads(dir: Path, id: string, docs: seq<RecordedDoc>, i: nat, side: ImageSide)
    requires TailsNamed(docs) && i < |docs| && TailsNamed(Only(docs, i, side))
    requires SetReads(dir, id, Only(docs, i, side))
    ensures ReadAt(dir, id, docs, i, side) == ImageAt(dir, id, docs, i, side)
    ensures forall j, other | 0 <= j < |docs| && (i != j || side != other) ::
              ImageAt(dir, id, docs, i, side) != ReadAt(dir, id, docs, j, other)
  {
    hide ImageAt, Landing, Tail, WriteSet;
    var out := Only(docs, i, side);
    OnlyWrites(dir, id, docs, i, side, |docs|);
    forall j, other | 0 <= j < |docs|
      ensures ReadAt(dir, id, docs, j, other) == ReadAt(dir, id, out, j, other)
      ensures ImageAt(dir, id, docs, j, other) == ImageAt(dir, id, out, j, other)
      ensures ReadAt(dir, id, out, j, other) == ImageAt(dir, id, out, i, side) <==> j == i && other == side
    {
      SamePlaces(dir, id, docs, out, j, other);
      assert Lookup(WriteSet(map[], dir, id, out, |out|), ReadAt(dir, id, out, j, other)) == SideOf(out[j], other);
    }
  }

  /** Documents whose tails stay inside and lead to different files. */
  ghost predicate Separable(docs: seq<RecordedDoc>) {
    && StaysInside(docs)
    && forall i, j | 0 <= i < j < |docs| :: Added(Tail(docs, i)) != Added(Tail(docs, j))
  }

  lemma {:induction false} TailsOfDocuments(docs: seq<RecordedDoc>)
    requires forall i | 0 <= i < |docs| :: DocumentPath(docs[i].path)
    ensures TailsNamed(docs) && Named(docs)
  {
    forall i | 0 <= i < |docs|
      ensures Tail(docs, i) != []
    {
      TailIsDocument(docs, i);
    }
  }

  /** For documents that stay inside, having places of their own is leading to different files. */
  lemma {:induction false} SeparableExactly(dir: Path, id: string, docs: seq<RecordedDoc>)
    requires Absolute(dir) && StaysInside(docs)
    ensures TailsNamed(docs) && (OwnPlaces(dir, id, docs) <==> Separable(docs))
  {
    TailsOfDocuments(docs);
    hide ImageAt, Landing, Tail, Added, Stays, DocumentPath;
    forall i, side | 0 <= i < |docs|
      ensures ReadAt(dir, id, docs, i, side) == ImageAt(dir, id, docs, i, side)
      ensures ImageAt(dir, id, docs, i, side) == SideDir(id, side) + Added(Tail(docs, i))
    {
      TailReads(dir, id, docs, i, side);
      ImageAtIs(dir, id, docs, i, side);
    }
    forall i, j, side, other | 0 <= i < |docs| && 0 <= j < |docs|
      ensures ImageAt(dir, id, docs, i, side) == ImageAt(dir, id, docs, j, other) <==>
              side == other && Added(Tail(docs, i)) == Added(Tail(docs, j))
    {
      SidesDiffer(id, side, Added(Tail(docs, i)), other, Added(Tail(docs, j)));
    }
    if OwnPlaces(dir, id, docs) {
      forall i, j | 0 <= i < j < |docs|
        ensures Added(Tail(docs, i)) != Added(Tail(docs, j))
      {
        assert ImageAt(dir, id, docs, i, Pre) != ImageAt(dir, id, docs, j, Pre);
      }
    }
  }

  lemma {:induction false} TailReads(dir: Path, id: string, docs: seq<RecordedDoc>, i: nat, side: ImageSide)
    requires i < |docs| && DocumentPath(docs[i].path) && Stays(Tail(docs, i)) && Tail(docs, i) != []
    ensures ReadAt(dir, id, docs, i, side) == ImageAt(dir, id, docs, i, side)
  {
    TailIsDocument(docs, i);
    SlashRoundTrip(Tail(docs, i));
  }

  lemma {:induction false} SidesDiffer(id: string, side: ImageSide, a: Path, other: ImageSide, b: Path)
    ensures SideDir(id, side) + a == SideDir(id, other) + b <==> side == other && a == b
  {
    var p, q := SideDir(id, side) + a, SideDir(id, other) + b;
    assert p[2] == SideName(side) && q[2] == SideName(other) && p[3..] == a && q[3..] == b;
  }

  lemma {:induction false} SidePathReads(id: string, side: ImageSide)
    requires Plain(id)
    ensures FromSlash(SidePath(id, side)) == SideDir(id, side)
  {
    var parts := ["images", id, SideName(side)];
    assert Part("images") && Part("pre") && Part("post");
    assert PartPath(parts);
    SlashRoundTrip(parts);
    assert parts[1..] == [id, SideName(side)] && parts[1..][1..] == [SideName(side)];
    assert Join([SideName(side)], '/') == SideName(side);
    assert Join([id, SideName(side)], '/') == id + ['/'] + SideName(side);
    assert Join(parts, '/') == "images" + ['/'] + (id + ['/'] + SideName(side));
    assert ToSlash(parts) == SidePath(id, side);
  }

  // ----- two runs the journal gets wrong -----

  const CLIMBING: seq<Path> := [["p", "..", "x", "a.kicad_sch"], ["p", "b.kicad_sch"]]

  function Climber(before: Bytes, after: Bytes): (docs: seq<RecordedDoc>)
    ensures PathsOf(docs) == CLIMBING
  {
    [RecordedDoc(CLIMBING[0], None, "r", Some(before), Some(after)), RecordedDoc(CLIMBING[1], None, "r", None, None)]
  }

  /** The tail of `p/../x/a.kicad_sch` below `p` climbs out of its side: both images are one file, and
      the after-image is what the before-image reads as. */
  lemma {:induction false} SidesShareAFile(setup: Setup, id: string, before: Bytes, after: Bytes)
    requires Absolute(setup.dir) && Plain(id) && before != after
    requires |before| + |after| <= setup.limits.maxEntryBytes
    ensures var record := RunRecord(Applied, Climber(before, after));
            && Named(record.documents) && EntryOf(record, id, setup.limits).rollbackToken == Some(id)
            && var files := Written(setup, map[], id, record);
            && IsDir(files, SetDir(id))
            && Image(files, setup.dir, EntryOf(record, id, setup.limits), 0, Pre) == Some(after)
            && record.documents[0].beforeBytes == Some(before)
  {
    var docs := Climber(before, after);
    var record := RunRecord(Applied, docs);
    ClimberTails(docs);
    var tail := Tail(docs, 0);
    var at := ["images", id, "x", "a.kicad_sch"];
    ClimberLands(setup.dir, id, Pre, tail);
    ClimberLands(setup.dir, id, Post, tail);
    hide Tail, Landing, SidePath, FromSlash, ToSlash, SharedPrefix, CommonRoot, WriteSet, EntryBytes;
    SidePathReads(id, Pre);
    ClimberWrites(setup, id, docs, at);
    assert SideOf(docs[0], Pre).Some?;
    assert at[..2] == SetDir(id);
    assert at in Written(setup, map[], id, record);
    assert Within(SetDir(id), at);
  }

  lemma {:induction false} ClimberTails(docs: seq<RecordedDoc>)
    requires PathsOf(docs) == CLIMBING
    ensures |docs| == 2 && Tail(docs, 0) == ["..", "x", "a.kicad_sch"]
    ensures FromSlash(ToSlash(Tail(docs, 0))) == Tail(docs, 0)
  {
    assert CLIMBING[..1] == [CLIMBING[0]] && CLIMBING[..1][0] == CLIMBING[0];
    var a, b := Parent(CLIMBING[0]), Parent(CLIMBING[1]);
    assert a == ["p", "..", "x"] && b == ["p"];
    assert SharedPrefix([CLIMBING[0]]) == a;
    assert CommonPrefix(a[1..], b[1..]) == [];
    assert CommonPrefix(a, b) == ["p"];
    assert SharedPrefix(CLIMBING) == ["p"];
    assert docs[0].path == PathsOf(docs)[0];
    var tail := Tail(docs, 0);
    assert tail == ["..", "x", "a.kicad_sch"];
    assert Part("..") && Part("x") && Part("a.kicad_sch");
    SlashRoundTrip(tail);
  }

  lemma {:induction false} ClimberLands(dir: Path, id: string, side: ImageSide, tail: Path)
    requires Absolute(dir) && tail == ["..", "x", "a.kicad_sch"]
    ensures Landing(dir, SideDir(id, side), tail) == ["images", id, "x", "a.kicad_sch"]
  {
    assert tail[..2] == ["..", "x"] && tail[..2][..1] == [".."] && tail[..2][..1][..0] == [];
    assert Settled([".."]) == [] && Climb([".."]) == 1;
    assert Settled(["..", "x"]) == ["x"] && Climb(["..", "x"]) == 1;
    assert Settled(tail) == ["x", "a.kicad_sch"] && Climb(tail) == 1;
    LandingIs(dir, SideDir(id, side), tail);
    var base := dir + SideDir(id, side);
    assert base[..|base| - 1] == dir + SetDir(id);
    assert dir + SetDir(id) + ["x", "a.kicad_sch"] == dir + ["images", id, "x", "a.kicad_sch"];
    assert (dir + ["images", id, "x", "a.kicad_sch"])[|dir|..] == ["images", id, "x", "a.kicad_sch"];
  }

  lemma {:induction false} ClimberWrites(setup: Setup, id: string, docs: seq<RecordedDoc>, at: Path)
    requires |docs| == 2 && docs[0].beforeBytes.Some? && docs[0].afterBytes.Some?
    requires docs[1].beforeBytes == docs[1].afterBytes == None
    requires |docs[0].beforeBytes.value| + |docs[0].afterBytes.value| <= setup.limits.maxEntryBytes
    requires ImageAt(setup.dir, id, docs, 0, Pre) == ImageAt(setup.dir, id, docs, 0, Post) == at
    ensures !TooLarge(RunRecord(Applied, docs), setup.limits)
    ensures Written(setup, map[], id, RunRecord(Applied, docs)) == map[at := docs[0].afterBytes.value]
  {
    hide ImageAt;
    assert docs[..1][..0] == [] && docs[..1][0] == docs[0] && docs[..1] == [docs[0]];
    assert EntryBytes(docs[..1]) == |docs[0].beforeBytes.value| + |docs[0].afterBytes.value|;
    assert EntryBytes(docs) == EntryBytes(docs[..1]);
    assert WriteSet(map[], setup.dir, id, docs, 0) == map[];
    assert WriteSet(map[], setup.dir, id, docs, 1) == map[at := docs[0].afterBytes.value];
  }

  function Escaping(other: string): seq<Path> {
    [["..", "..", other, "a.kicad_sch"], ["b", "y.kicad_sch"]]
  }

  /** Neither document is absolute and no root is shared, yet the first one's image lands in the
      directory of another run's set. */
  lemma {:induction false} ImageLandsElsewhere(
      dir: Path, id: string, docs: seq<RecordedDoc>, side: ImageSide, other: string)
    requires Absolute(dir) && Plain(other) && PathsOf(docs) == Escaping(other)
    ensures |docs| == 2 && !Absolute(docs[0].path) && !Absolute(docs[1].path)
    ensures Within(SetDir(other), ImageAt(dir, id, docs, 0, side))
  {
    hide Landing;
    EscapingTail(docs, other);
    var tail := ["..", "..", other, "a.kicad_sch"];
    EscapingLands(dir, id, side, tail, other);
    assert ["images", other, "a.kicad_sch"][..2] == SetDir(other);
  }

  lemma {:induction false} EscapingTail(docs: seq<RecordedDoc>, other: string)
    requires PathsOf(docs) == Escaping(other)
    ensures |docs| == 2 && docs[0].path == Escaping(other)[0] && docs[1].path == Escaping(other)[1]
    ensures Tail(docs, 0) == Escaping(other)[0]
  {
    var paths := Escaping(other);
    assert paths[..1] == [paths[0]] && paths[..1][0] == paths[0];
    assert SharedPrefix([paths[0]]) == ["..", "..", other] && Parent(paths[1]) == ["b"];
    assert SharedPrefix(paths) == [];
    assert docs[0].path == PathsOf(docs)[0] && docs[1].path == PathsOf(docs)[1];
  }

  lemma {:induction false} EscapingLands(dir: Path, id: string, side: ImageSide, tail: Path, other: string)
    requires Absolute(dir) && Plain(other) && tail == ["..", "..", other, "a.kicad_sch"]
    ensures Landing(dir, SideDir(id, side), tail) == ["images", other, "a.kicad_sch"]
  {
    assert tail[..3] == ["..", "..", other] && tail[..3][..2] == ["..", ".."];
    assert tail[..3][..2][..1] == [".."] && tail[..3][..2][..1][..0] == [];
    assert Settled([".."]) == [] && Climb([".."]) == 1;
    assert Settled(["..", ".."]) == [] && Climb(["..", ".."]) == 2;
    assert Settled(["..", "..", other]) == [other] && Climb(["..", "..", other]) == 2;
    assert Settled(tail) == [other, "a.kicad_sch"] && Climb(tail) == 2;
    hide Settled, Climb, Landing;
    LandingIs(dir, SideDir(id, side), tail);
    var base, p := dir + SideDir(id, side), ["images", other, "a.kicad_sch"];
    assert base[..|base| - 2] == dir + ["images"];
    assert dir + ["images"] + [other, "a.kicad_sch"] == dir + p;
    assert (dir + p)[|dir|..] == p;
  }
}
