/** The lines of the run journal and the images kept beside them. */
module Journals {
  import opened Wrappers
  import opened Text
  import opened Disks
  import opened JournalPaths

  datatype JournalLimits = JournalLimits(maxEntries: nat, maxImageSets: nat, maxImageBytes: nat, maxEntryBytes: nat)

  datatype Outcome = Applied | RolledBack

  datatype RecordedDoc = RecordedDoc(
    path: Path,
    beforeRevision: Option<string>,
    afterRevision: string,
    beforeBytes: Option<Bytes>,
    afterBytes: Option<Bytes>)

  datatype RunRecord = RunRecord(outcome: Outcome, documents: seq<RecordedDoc>)

  datatype DocumentEntry = DocumentEntry(path: string, before: Option<string>, after: string)

  datatype ImageSide = Pre | Post

  datatype JournalEntry = JournalEntry(
    id: string,
    outcome: Outcome,
    documents: seq<DocumentEntry>,
    root: Option<string>,
    preSnapshotPath: Option<string>,
    postSnapshotPath: Option<string>,
    imagesOmitted: bool,
    rollbackToken: Option<string>)

  /** A line that does not parse is kept, and skipped by readers. */
  datatype Line = Entry(entry: JournalEntry) | Noise(text: Bytes)

  /** How entries are written and read: one JSON object, and whether bytes are text at all. */
  datatype Codec = Codec(render: JournalEntry -> Bytes, parse: Bytes -> Option<JournalEntry>, utf8: Bytes -> bool)

  /** Where the journal is, how it writes lines, and what it may keep. */
  datatype Setup = Setup(dir: Path, codec: Codec, limits: JournalLimits)

  const NEWLINE: byte := 10
  const BRACE: byte := 123

  function SideName(side: ImageSide): string {
    match side
    case Pre => "pre"
    case Post => "post"
  }

  function SetDir(id: string): Path {
    ["images", id]
  }

  function SideDir(id: string, side: ImageSide): Path {
    ["images", id, SideName(side)]
  }

  function SidePath(id: string, side: ImageSide): string {
    "images/" + id + "/" + SideName(side)
  }

  // ----- one record -----

  function PathsOf(docs: seq<RecordedDoc>): (paths: seq<Path>)
    ensures |paths| == |docs| && forall i | 0 <= i < |docs| :: paths[i] == docs[i].path
  {
    seq(|docs|, i requires 0 <= i < |docs| => docs[i].path)
  }

  function Tail(docs: seq<RecordedDoc>, i: nat): Path
    requires i < |docs|
  {
    Relativize(docs[i].path, CommonRoot(PathsOf(docs)))
  }

  function Bytes0(bytes: Option<Bytes>): nat {
    if bytes.Some? then |bytes.value| else 0
  }

  function EntryBytes(docs: seq<RecordedDoc>): nat {
    if docs == [] then 0
    else EntryBytes(docs[..|docs| - 1]) + Bytes0(docs[|docs| - 1].beforeBytes) + Bytes0(docs[|docs| - 1].afterBytes)
  }

  function SideOf(doc: RecordedDoc, side: ImageSide): Option<Bytes> {
    match side
    case Pre => doc.beforeBytes
    case Post => doc.afterBytes
  }

  predicate HasSide(docs: seq<RecordedDoc>, side: ImageSide) {
    exists i | 0 <= i < |docs| :: SideOf(docs[i], side).Some?
  }

  function WriteSide(files: Files, at: Path, bytes: Option<Bytes>): Files {
    if bytes.Some? then files[at := bytes.value] else files
  }

  /** The file that one image of one document is written to. */
  function ImageAt(dir: Path, id: string, docs: seq<RecordedDoc>, i: nat, side: ImageSide): Path
    requires i < |docs|
  {
    Landing(dir, SideDir(id, side), Tail(docs, i))
  }

  /** The images of the first `n` documents written over `files`. */
  function WriteSet(files: Files, dir: Path, id: string, docs: seq<RecordedDoc>, n: nat): Files
    requires n <= |docs|
  {
    if n == 0 then files
    else
      var before := WriteSet(files, dir, id, docs, n - 1);
      var pre := WriteSide(before, ImageAt(dir, id, docs, n - 1, Pre), docs[n - 1].beforeBytes);
      WriteSide(pre, ImageAt(dir, id, docs, n - 1, Post), docs[n - 1].afterBytes)
  }

  predicate TooLarge(record: RunRecord, limits: JournalLimits) {
    EntryBytes(record.documents) > limits.maxEntryBytes
  }

  /** Every document has a path. */
  predicate Named(docs: seq<RecordedDoc>) {
    forall i | 0 <= i < |docs| :: docs[i].path != []
  }

  /** What the disk holds once the images the entry budget allows are written. */
  function Written(setup: Setup, files: Files, id: string, record: RunRecord): Files {
    if TooLarge(record, setup.limits) then files
    else WriteSet(files, setup.dir, id, record.documents, |record.documents|)
  }

  function EntryOf(record: RunRecord, id: string, limits: JournalLimits): JournalEntry
    requires Named(record.documents)
  {
    var docs := record.documents;
    var root := CommonRoot(PathsOf(docs));
    var large := TooLarge(record, limits);
    var pre := !large && HasSide(docs, Pre);
    var post := !large && HasSide(docs, Post);
    JournalEntry(
      id,
      record.outcome,
      DocumentEntries(docs),
      if root.Some? then Some(ToSlash(RootOf(docs))) else None,
      if pre then Some(SidePath(id, Pre)) else None,
      if post then Some(SidePath(id, Post)) else None,
      large,
      if pre then Some(id) else None)
  }

  function RootOf(docs: seq<RecordedDoc>): (root: Path)
    requires CommonRoot(PathsOf(docs)).Some?
    ensures root != []
  {
    CommonRoot(PathsOf(docs)).value
  }

  lemma {:induction false} TailNotEmpty(docs: seq<RecordedDoc>, i: nat)
    requires i < |docs| && docs[i].path != []
    ensures Tail(docs, i) != []
  {
    if CommonRoot(PathsOf(docs)).Some? {
      assert PathsOf(docs)[i] in PathsOf(docs);
      RootRebuilds(PathsOf(docs), docs[i].path);
    }
  }

  function DocumentEntries(docs: seq<RecordedDoc>): (out: seq<DocumentEntry>)
    requires Named(docs)
    ensures |out| == |docs|
    ensures forall i | 0 <= i < |docs| ::
              Tail(docs, i) != [] &&
              out[i] == DocumentEntry(ToSlash(Tail(docs, i)), docs[i].beforeRevision, docs[i].afterRevision)
  {
    assert forall i | 0 <= i < |docs| :: Tail(docs, i) != [] by {
      forall i | 0 <= i < |docs| {
        TailNotEmpty(docs, i);
      }
    }
    seq(|docs|, i requires 0 <= i < |docs| && Tail(docs, i) != [] =>
      DocumentEntry(ToSlash(Tail(docs, i)), docs[i].beforeRevision, docs[i].afterRevision))
  }

  // ----- the file's bytes -----

  /** What readers find in the file: the lines ended by a newline, and what follows the last one. */
  datatype LogFile = LogFile(lines: seq<Line>, tail: Bytes)

  function LineOf(codec: Codec, text: Bytes): Line {
    match codec.parse(text)
    case Some(entry) => Entry(entry)
    case None => Noise(text)
  }

  /** The unfinished text is a line to readers, if there is any. */
  function TailLines(codec: Codec, tail: Bytes): seq<Line> {
    if tail == [] then [] else [LineOf(codec, tail)]
  }

  function AllLines(codec: Codec, log: LogFile): seq<Line> {
    log.lines + TailLines(codec, log.tail)
  }

  /** The file after more bytes are written at its end. */
  function Feed(codec: Codec, log: LogFile, text: Bytes): LogFile {
    if text == [] then log
    else
      var before := Feed(codec, log, text[..|text| - 1]);
      if text[|text| - 1] == NEWLINE then LogFile(AllLines(codec, before), [])
      else LogFile(before.lines, before.tail + [text[|text| - 1]])
  }

  function LineText(codec: Codec, entry: JournalEntry): Bytes {
    codec.render(entry) + [NEWLINE]
  }

  /** A line is one JSON object: it starts with a brace, and no proper part of it parses. */
  ghost predicate Renders(codec: Codec, entry: JournalEntry) {
    var text := codec.render(entry);
    && text != [] && text[0] == BRACE && NEWLINE !in text
    && codec.parse(text) == Some(entry)
    && forall n | 0 <= n < |text| :: codec.parse(text[..n]).None?
  }

  /** Text that begins like a line, with the start of another glued on, does not parse; and bytes that
      are no text stay none. */
  ghost predicate Glues(codec: Codec, text: Bytes, entry: JournalEntry) {
    && (codec.utf8(text) ==> codec.utf8(text + codec.render(entry)))
    && forall n | 0 < n <= |codec.render(entry)| ::
         && (codec.utf8(text + codec.render(entry)[..n]) ==> codec.utf8(text))
         && (text != [] && text[0] == BRACE ==> codec.parse(text + codec.render(entry)[..n]).None?)
  }

  /** What is used of JSON and UTF-8. */
  ghost predicate LineCodec(codec: Codec) {
    && (forall entry :: Renders(codec, entry))
    && (forall text, entry :: Glues(codec, text, entry))
    && (forall text :: codec.parse(text).Some? ==> codec.utf8(text))
  }

  ghost predicate Texts(codec: Codec, lines: seq<Line>) {
    forall i | 0 <= i < |lines| :: lines[i].Noise? ==> codec.utf8(lines[i].text)
  }

  /** The whole file is text. */
  ghost predicate Readable(codec: Codec, log: LogFile) {
    Texts(codec, AllLines(codec, log))
  }

  /** What becomes of the text a line is written after. */
  function Completed(codec: Codec, tail: Bytes, entry: JournalEntry): Line {
    if tail == [] then Entry(entry) else Noise(tail + codec.render(entry))
  }

  predicate Begun(tail: Bytes) {
    tail == [] || tail[0] == BRACE
  }

  lemma {:induction false} FeedText(codec: Codec, log: LogFile, text: Bytes)
    requires NEWLINE !in text
    ensures Feed(codec, log, text) == LogFile(log.lines, log.tail + text)
  {
    if text == [] {
      assert log.tail + text == log.tail;
    } else {
      var init, last := text[..|text| - 1], text[|text| - 1];
      FeedText(codec, log, init);
      assert text == init + [last];
      assert log.tail + init + [last] == log.tail + text;
    }
  }

  lemma {:induction false} FeedLine(codec: Codec, log: LogFile, entry: JournalEntry)
    requires LineCodec(codec) && Begun(log.tail)
    ensures Feed(codec, log, LineText(codec, entry)) == LogFile(log.lines + [Completed(codec, log.tail, entry)], [])
  {
    var text := codec.render(entry);
    assert Renders(codec, entry);
    FeedText(codec, log, text);
    assert LineText(codec, entry)[..|text|] == text;
    assert text[..|text|] == text;
    assert [] + text == text;
    assert Glues(codec, log.tail, entry);
  }

  /** Writing in two goes is writing at once. */
  lemma {:induction false} FeedTwice(codec: Codec, log: LogFile, first: Bytes, second: Bytes)
    ensures Feed(codec, Feed(codec, log, first), second) == Feed(codec, log, first + second)
  {
    var text := first + second;
    if second == [] {
      assert text == first;
    } else {
      FeedTwice(codec, log, first, second[..|second| - 1]);
      assert text[..|text| - 1] == first + second[..|second| - 1];
    }
  }

  // ----- reading back -----

  function Forgotten(files: Files, entry: JournalEntry): JournalEntry {
    if IsDir(files, SetDir(entry.id)) then entry
    else entry.(preSnapshotPath := None, postSnapshotPath := None, rollbackToken := None)
  }

  /** Every entry, oldest first, as true of the disk now. */
  function Entries(lines: seq<Line>, files: Files): seq<JournalEntry> {
    if lines == [] then []
    else Entries(lines[..|lines| - 1], files) +
         (if lines[|lines| - 1].Entry? then [Forgotten(files, lines[|lines| - 1].entry)] else [])
  }

  function Lookup(files: Files, p: Path): Option<Bytes> {
    if p in files then Some(files[p]) else None
  }

  function Image(files: Files, dir: Path, entry: JournalEntry, index: nat, side: ImageSide): Option<Bytes> {
    var base := match side
                case Pre => entry.preSnapshotPath
                case Post => entry.postSnapshotPath;
    if index >= |entry.documents| || base.None? then None
    else Lookup(files, Landing(dir, FromSlash(base.value), FromSlash(entry.documents[index].path)))
  }

  // ----- the line budget -----

  function LastLines(lines: seq<Line>, max: nat): seq<Line> {
    if |lines| <= max then lines else lines[|lines| - max..]
  }

  /** Compacting after each line keeps what compacting the whole history once would. */
  lemma {:induction false} LastLinesIncremental(lines: seq<Line>, more: Line, max: nat)
    ensures LastLines(LastLines(lines, max) + [more], max) == LastLines(lines + [more], max)
  {
    if |lines| > max {
      assert LastLines(lines, max) + [more] == (lines + [more])[|lines| - max..];
    }
  }

  // ----- the image budgets -----

  /** Ids of the lines whose image set is on disk, oldest first. */
  function Listed(lines: seq<Line>, files: Files): seq<string> {
    if lines == [] then []
    else Listed(lines[..|lines| - 1], files) +
         (if lines[|lines| - 1].Entry? && IsDir(files, SetDir(lines[|lines| - 1].entry.id))
          then [lines[|lines| - 1].entry.id]
          else [])
  }

  function FilesBelow(files: Files, dir: Path): set<Path> {
    set p | p in files && Within(dir, p)
  }

  ghost function SumOver(files: Files, paths: set<Path>): nat
    requires paths <= files.Keys
  {
    if paths == {} then 0
    else
      var p :| p in paths;
      |files[p]| + SumOver(files, paths - {p})
  }

  lemma {:induction false} SumAnyOrder(files: Files, paths: set<Path>, p: Path)
    requires paths <= files.Keys && p in paths
    ensures SumOver(files, paths) == |files[p]| + SumOver(files, paths - {p})
  {
    var q :| q in paths && SumOver(files, paths) == |files[q]| + SumOver(files, paths - {q});
    if q != p {
      SumAnyOrder(files, paths - {q}, p);
      SumAnyOrder(files, paths - {p}, q);
      assert paths - {q} - {p} == paths - {p} - {q};
    }
  }

  lemma {:induction false} SumSame(files: Files, other: Files, paths: set<Path>)
    requires paths <= files.Keys && paths <= other.Keys && forall p | p in paths :: files[p] == other[p]
    ensures SumOver(files, paths) == SumOver(other, paths)
  {
    if paths != {} {
      var p :| p in paths;
      SumAnyOrder(files, paths, p);
      SumAnyOrder(other, paths, p);
      SumSame(files, other, paths - {p});
    }
  }

  ghost function SetBytes(files: Files, id: string): nat {
    SumOver(files, FilesBelow(files, SetDir(id)))
  }

  method DirSize(files: Files, id: string) returns (total: nat)
    ensures total == SetBytes(files, id)
  {
    var all := FilesBelow(files, SetDir(id));
    var rest := all;
    total := 0;
    while rest != {}
      invariant rest <= all && total + SumOver(files, rest) == SumOver(files, all)
      decreases |rest|
    {
      var p :| p in rest;
      SumAnyOrder(files, rest, p);
      total := total + |files[p]|;
      rest := rest - {p};
    }
  }

  ghost function SetsBytes(files: Files, ids: seq<string>): nat {
    if ids == [] then 0 else SetBytes(files, ids[0]) + SetsBytes(files, ids[1..])
  }

  ghost predicate WithinBudget(files: Files, ids: seq<string>, limits: JournalLimits) {
    |ids| <= limits.maxImageSets && SetsBytes(files, ids) <= limits.maxImageBytes
  }

  function RemoveDir(files: Files, dir: Path): Files {
    files - FilesBelow(files, dir)
  }

  function RemoveSets(files: Files, ids: seq<string>): Files {
    if ids == [] then files else RemoveDir(RemoveSets(files, ids[..|ids| - 1]), SetDir(ids[|ids| - 1]))
  }

  lemma {:induction false} OneSetDir(a: string, b: string, p: Path)
    requires Within(SetDir(a), p) && Within(SetDir(b), p)
    ensures a == b
  {
    assert p[..2][1] == a && p[..2][1] == b;
  }

  lemma {:induction false} RemoveSetsMeaning(files: Files, ids: seq<string>, p: Path)
    ensures p in RemoveSets(files, ids) <==> p in files && forall id | id in ids :: !Within(SetDir(id), p)
    ensures p in RemoveSets(files, ids) ==> RemoveSets(files, ids)[p] == files[p]
  {
    if ids != [] {
      var init, last := ids[..|ids| - 1], ids[|ids| - 1];
      RemoveSetsMeaning(files, init, p);
      assert ids == init + [last];
      assert forall id | id in ids :: id in init || id == last;
      assert last in ids && forall id | id in init :: id in ids;
    }
  }

  lemma {:induction false} SetAfterRemoval(files: Files, ids: seq<string>, id: string)
    ensures var left := RemoveSets(files, ids);
            && FilesBelow(left, SetDir(id)) == (if id in ids then {} else FilesBelow(files, SetDir(id)))
            && (IsDir(left, SetDir(id)) <==> IsDir(files, SetDir(id)) && id !in ids)
            && (id !in ids ==> SetBytes(left, id) == SetBytes(files, id))
            && (id !in ids ==> forall p | Within(SetDir(id), p) :: Same(left, files, p))
  {
    var left := RemoveSets(files, ids);
    forall p | Within(SetDir(id), p)
      ensures p in left <==> p in files && id !in ids
      ensures p in left ==> left[p] == files[p]
    {
      RemoveSetsMeaning(files, ids, p);
      forall other | other in ids && Within(SetDir(other), p)
        ensures other == id
      {
        OneSetDir(other, id, p);
      }
    }
    if id !in ids {
      assert FilesBelow(left, SetDir(id)) == FilesBelow(files, SetDir(id));
      SumSame(left, files, FilesBelow(files, SetDir(id)));
    }
  }

  function Without(ids: seq<string>, gone: seq<string>): seq<string> {
    if ids == [] then []
    else Without(ids[..|ids| - 1], gone) + (if ids[|ids| - 1] in gone then [] else [ids[|ids| - 1]])
  }

  lemma {:induction false} ListedAfterRemoval(lines: seq<Line>, files: Files, gone: seq<string>)
    ensures Listed(lines, RemoveSets(files, gone)) == Without(Listed(lines, files), gone)
  {
    hide RemoveSets, IsDir;
    if lines != [] {
      var init, last := lines[..|lines| - 1], lines[|lines| - 1];
      ListedAfterRemoval(init, files, gone);
      var left := RemoveSets(files, gone);
      var rest := Listed(init, files);
      assert rest + [] == rest && Without(rest, gone) + [] == Without(rest, gone);
      if last.Entry? {
        var id := last.entry.id;
        SetAfterRemoval(files, gone, id);
        assert (rest + [id])[..|rest|] == rest;
        assert Without(rest + [id], gone) == Without(rest, gone) + (if id in gone then [] else [id]);
      }
    }
  }

  lemma {:induction false} WithoutPrefix(ids: seq<string>, k: nat, n: nat)
    requires k <= n <= |ids| && forall i, j | 0 <= i < j < |ids| :: ids[i] != ids[j]
    ensures Without(ids[..n], ids[..k]) == ids[k..n]
    decreases n
  {
    var head := ids[..n];
    if n > 0 {
      assert head[..n - 1] == ids[..n - 1];
      if n == k {
        WithoutAll(ids[..n], ids[..k]);
      } else {
        WithoutPrefix(ids, k, n - 1);
        assert ids[n - 1] !in ids[..k];
        assert ids[k..n] == ids[k..n - 1] + [ids[n - 1]];
      }
    }
  }

  lemma {:induction false} WithoutAll(ids: seq<string>, gone: seq<string>)
    requires forall id | id in ids :: id in gone
    ensures Without(ids, gone) == []
  {
    if ids != [] {
      WithoutAll(ids[..|ids| - 1], gone);
    }
  }

  lemma {:induction false} SetsBytesAppend(files: Files, ids: seq<string>, id: string)
    ensures SetsBytes(files, ids + [id]) == SetsBytes(files, ids) + SetBytes(files, id)
  {
    if ids == [] {
      assert (ids + [id])[1..] == [];
    } else {
      assert (ids + [id])[1..] == ids[1..] + [id];
      SetsBytesAppend(files, ids[1..], id);
    }
  }

  lemma {:induction false} SetsBytesSame(files: Files, left: Files, ids: seq<string>)
    requires forall id | id in ids :: SetBytes(left, id) == SetBytes(files, id)
    ensures SetsBytes(left, ids) == SetsBytes(files, ids)
  {
    if ids != [] {
      SetsBytesSame(files, left, ids[1..]);
    }
  }

  predicate HasLine(lines: seq<Line>, id: string) {
    exists i | 0 <= i < |lines| :: lines[i].Entry? && lines[i].entry.id == id
  }

  lemma {:induction false} ListedIn(lines: seq<Line>, files: Files, id: string)
    ensures id in Listed(lines, files) <==> IsDir(files, SetDir(id)) && HasLine(lines, id)
  {
    hide IsDir;
    if lines != [] {
      var init, last := lines[..|lines| - 1], lines[|lines| - 1];
      ListedIn(init, files, id);
      if i :| 0 <= i < |lines| && lines[i].Entry? && lines[i].entry.id == id {
        assert i < |init| ==> init[i] == lines[i];
      }
      if i :| 0 <= i < |init| && init[i].Entry? && init[i].entry.id == id {
        assert lines[i] == init[i];
      }
    }
  }

  ghost predicate DistinctIds(lines: seq<Line>) {
    forall i, j | 0 <= i < j < |lines| && lines[i].Entry? && lines[j].Entry? ::
      lines[i].entry.id != lines[j].entry.id
  }

  lemma {:induction false} ListedDistinct(lines: seq<Line>, files: Files)
    requires DistinctIds(lines)
    ensures forall i, j | 0 <= i < j < |Listed(lines, files)| :: Listed(lines, files)[i] != Listed(lines, files)[j]
  {
    hide IsDir;
    if lines != [] {
      var init, last := lines[..|lines| - 1], lines[|lines| - 1];
      ListedDistinct(init, files);
      if last.Entry? {
        ListedIn(init, files, last.entry.id);
        assert last.entry.id !in Listed(init, files);
      }
    }
  }

  method ListSets(lines: seq<Line>, files: Files) returns (ids: seq<string>, sizes: seq<nat>)
    ensures ids == Listed(lines, files) && |sizes| == |ids|
    ensures forall i | 0 <= i < |ids| :: sizes[i] == SetBytes(files, ids[i])
  {
    hide IsDir, SetBytes;
    ids, sizes := [], [];
    for n := 0 to |lines|
      invariant ids == Listed(lines[..n], files) && |sizes| == |ids|
      invariant forall i | 0 <= i < |ids| :: sizes[i] == SetBytes(files, ids[i])
    {
      assert lines[..n + 1][..n] == lines[..n];
      if lines[n].Entry? && IsDir(files, SetDir(lines[n].entry.id)) {
        var size := DirSize(files, lines[n].entry.id);
        ids := ids + [lines[n].entry.id];
        sizes := sizes + [size];
      }
    }
    assert lines[..|lines|] == lines;
  }

  method Total(files: Files, ids: seq<string>, sizes: seq<nat>) returns (total: nat)
    requires |sizes| == |ids| && forall i | 0 <= i < |ids| :: sizes[i] == SetBytes(files, ids[i])
    ensures total == SetsBytes(files, ids)
  {
    hide SetBytes;
    total := 0;
    for n := 0 to |ids|
      invariant total == SetsBytes(files, ids[..n])
    {
      TakeOneMore(ids, n);
      SetsBytesAppend(files, ids[..n], ids[n]);
      total := total + sizes[n];
    }
    assert ids[..|ids|] == ids;
  }

  /** How many of the oldest sets are too many for the budgets. */
  ghost function Surplus(files: Files, ids: seq<string>, limits: JournalLimits): (n: nat)
    ensures n <= |ids|
  {
    if ids == [] || WithinBudget(files, ids, limits) then 0 else 1 + Surplus(files, ids[1..], limits)
  }

  /** The sets left after dropping the first `k` fit both budgets exactly from the surplus on. */
  lemma {:induction false} SurplusIsLeast(files: Files, ids: seq<string>, limits: JournalLimits, k: nat)
    requires k <= |ids|
    ensures |ids| - k <= limits.maxImageSets && SetsBytes(files, ids[k..]) <= limits.maxImageBytes <==>
            k >= Surplus(files, ids, limits)
  {
    hide SetBytes;
    if k == 0 {
      assert ids[0..] == ids;
    } else {
      assert ids[1..][k - 1..] == ids[k..];
      SurplusIsLeast(files, ids[1..], limits, k - 1);
      FewerFit(files, ids, limits);
    }
  }

  lemma {:induction false} FewerFit(files: Files, ids: seq<string>, limits: JournalLimits)
    requires ids != []
    ensures WithinBudget(files, ids, limits) ==>
              WithinBudget(files, ids[1..], limits) && Surplus(files, ids[1..], limits) == 0
  {
  }

  /** The images left once the surplus of listed sets is gone. */
  ghost function Evicted(lines: seq<Line>, files: Files, limits: JournalLimits): Files {
    RemoveSets(files, Listed(lines, files)[..Surplus(files, Listed(lines, files), limits)])
  }

  /** Drop the oldest listed sets, no more than needed. */
  method EvictImages(lines: seq<Line>, files: Files, limits: JournalLimits) returns (left: Files)
    ensures left == Evicted(lines, files, limits)
  {
    hide *;
    var ids, sizes := ListSets(lines, files);
    var total := Total(files, ids, sizes);
    var count := |ids|;
    var idx := 0;
    left := files;
    NothingRemoved(files);
    assert ids[0..] == ids && ids[..0] == [];
    while idx < |ids| && (count > limits.maxImageSets || total > limits.maxImageBytes)
      invariant idx <= |ids| && count == |ids| - idx && total == SetsBytes(files, ids[idx..])
      invariant left == RemoveSets(files, ids[..idx])
      invariant idx + Surplus(files, ids[idx..], limits) == Surplus(files, ids, limits)
    {
      OneSetTooMany(files, ids, limits, idx);
      left := RemoveDir(left, SetDir(ids[idx]));
      total := total - sizes[idx];
      count := count - 1;
      idx := idx + 1;
    }
    NoSurplus(files, ids[idx..], limits);
    EvictedIs(lines, files, limits, ids);
  }

  lemma {:induction false} NothingRemoved(files: Files)
    ensures RemoveSets(files, []) == files
  {
  }

  lemma {:induction false} OneSetTooMany(files: Files, ids: seq<string>, limits: JournalLimits, idx: nat)
    requires idx < |ids|
    ensures RemoveSets(files, ids[..idx + 1]) == RemoveDir(RemoveSets(files, ids[..idx]), SetDir(ids[idx]))
    ensures SetsBytes(files, ids[idx..]) == SetBytes(files, ids[idx]) + SetsBytes(files, ids[idx + 1..])
    ensures |ids| - idx > limits.maxImageSets || SetsBytes(files, ids[idx..]) > limits.maxImageBytes ==>
              Surplus(files, ids[idx..], limits) == 1 + Surplus(files, ids[idx + 1..], limits)
  {
    hide SetBytes, RemoveDir;
    assert ids[idx..][1..] == ids[idx + 1..];
    assert ids[..idx + 1][..idx] == ids[..idx];
  }

  lemma {:induction false} NoSurplus(files: Files, ids: seq<string>, limits: JournalLimits)
    ensures ids == [] || (|ids| <= limits.maxImageSets && SetsBytes(files, ids) <= limits.maxImageBytes) ==>
              Surplus(files, ids, limits) == 0
  {
  }

  lemma {:induction false} EvictedIs(lines: seq<Line>, files: Files, limits: JournalLimits, ids: seq<string>)
    requires ids == Listed(lines, files)
    ensures Evicted(lines, files, limits) == RemoveSets(files, ids[..Surplus(files, ids, limits)])
  {
  }

  /** After an eviction the listed sets are the newest of those listed, and within both budgets. */
  lemma {:induction false} EvictedLeaves(lines: seq<Line>, files: Files, limits: JournalLimits)
    requires DistinctIds(lines)
    ensures var left, ids := Evicted(lines, files, limits), Listed(lines, files);
            Listed(lines, left) == ids[Surplus(files, ids, limits)..] && WithinBudget(left, Listed(lines, left), limits)
  {
    hide SetBytes, RemoveSets, IsDir, Listed, Without, Surplus;
    var ids := Listed(lines, files);
    var n := Surplus(files, ids, limits);
    var left := RemoveSets(files, ids[..n]);
    SurplusIsLeast(files, ids, limits, n);
    ListedDistinct(lines, files);
    ListedAfterRemoval(lines, files, ids[..n]);
    assert ids[..|ids|] == ids && ids[n..|ids|] == ids[n..];
    WithoutPrefix(ids, n, |ids|);
    forall id | id in ids[n..]
      ensures SetBytes(left, id) == SetBytes(files, id)
    {
      assert id !in ids[..n];
      SetAfterRemoval(files, ids[..n], id);
    }
    SetsBytesSame(files, left, ids[n..]);
  }

  // ----- what an entry tells -----

  /** The bytes of a record are those of both sides of every document, added up. */
  lemma {:induction false} EntryBytesAdd(docs: seq<RecordedDoc>, doc: RecordedDoc)
    ensures EntryBytes([]) == 0
    ensures EntryBytes(docs + [doc]) ==
            EntryBytes(docs) + (if doc.beforeBytes.Some? then |doc.beforeBytes.value| else 0) +
            if doc.afterBytes.Some? then |doc.afterBytes.value| else 0
  {
    assert (docs + [doc])[..|docs|] == docs;
  }

  /** An entry tells its record: the outcome and each document's path and revisions as they were; the
      images are left out exactly when they come to more than the limit; a side has a directory exactly
      when some document has bytes on it, and a token exactly when the earlier side has one. */
  lemma {:induction false} EntryTells(record: RunRecord, id: string, limits: JournalLimits)
    requires Named(record.documents)
    ensures var docs, entry := record.documents, EntryOf(record, id, limits);
            var large := EntryBytes(docs) > limits.maxEntryBytes;
            && entry.id == id && entry.outcome == record.outcome && entry.imagesOmitted == large
            && |entry.documents| == |docs|
            && (forall i | 0 <= i < |docs| ::
                  && entry.documents[i].before == docs[i].beforeRevision
                  && entry.documents[i].after == docs[i].afterRevision
                  && Tail(docs, i) != [] && entry.documents[i].path == Join(Tail(docs, i), '/'))
            && entry.preSnapshotPath == (if !large && AnyBefore(docs) then Some("images/" + id + "/pre") else None)
            && entry.postSnapshotPath == (if !large && AnyAfter(docs) then Some("images/" + id + "/post") else None)
            && entry.rollbackToken == (if entry.preSnapshotPath.Some? then Some(id) else None)
            && (entry.root.Some? <==> CommonRoot(PathsOf(docs)).Some?)
            && (entry.root.Some? ==> RootOf(docs) != [] && entry.root.value == Join(RootOf(docs), '/'))
  {
    hide Tail, EntryBytes, IsDir, Landing, HasSide, AnyBefore, AnyAfter, SidePath, ToSlash, RootOf;
    SidesHeld(record.documents);
    SlashJoins(record.documents);
    SidePathIs(id);
  }

  ghost predicate AnyBefore(docs: seq<RecordedDoc>) {
    exists i | 0 <= i < |docs| :: docs[i].beforeBytes.Some?
  }

  ghost predicate AnyAfter(docs: seq<RecordedDoc>) {
    exists i | 0 <= i < |docs| :: docs[i].afterBytes.Some?
  }

  lemma {:induction false} SidePathIs(id: string)
    ensures SidePath(id, Pre) == "images/" + id + "/pre" && SidePath(id, Post) == "images/" + id + "/post"
  {
    assert "images/" + id + "/" + "pre" == "images/" + id + "/pre";
    assert "images/" + id + "/" + "post" == "images/" + id + "/post";
  }

  lemma {:induction false} SlashJoins(docs: seq<RecordedDoc>)
    ensures forall p: Path | p != [] :: ToSlash(p) == Join(p, '/')
  {
  }

  lemma {:induction false} SidesHeld(docs: seq<RecordedDoc>)
    ensures HasSide(docs, Pre) <==> AnyBefore(docs)
    ensures HasSide(docs, Post) <==> AnyAfter(docs)
  {
    forall i | 0 <= i < |docs|
      ensures SideOf(docs[i], Pre) == docs[i].beforeBytes && SideOf(docs[i], Post) == docs[i].afterBytes
    {
    }
  }

  /** An entry as it is read: unchanged while its image set is on disk, and without its image fields once
      the set is gone. */
  ghost predicate ReadAs(files: Files, entry: JournalEntry, out: JournalEntry) {
    var here := IsDir(files, ["images", entry.id]);
    && out.id == entry.id && out.outcome == entry.outcome && out.documents == entry.documents
    && out.root == entry.root && out.imagesOmitted == entry.imagesOmitted
    && out.preSnapshotPath == (if here then entry.preSnapshotPath else None)
    && out.postSnapshotPath == (if here then entry.postSnapshotPath else None)
    && out.rollbackToken == (if here then entry.rollbackToken else None)
  }

  /** Positions of the lines that are entries, in order. */
  ghost predicate Picks(lines: seq<Line>, picks: seq<nat>) {
    && (forall i, j | 0 <= i < j < |picks| :: picks[i] < picks[j])
    && forall k: nat :: k in picks <==> k < |lines| && lines[k].Entry?
  }

  /** Reading gives every line that parses, once each, oldest first. */
  lemma {:induction false} EntriesExactly(lines: seq<Line>, files: Files) returns (picks: seq<nat>)
    ensures Picks(lines, picks) && |Entries(lines, files)| == |picks|
    ensures forall i | 0 <= i < |picks| ::
              picks[i] < |lines| && lines[picks[i]].Entry? &&
              ReadAs(files, lines[picks[i]].entry, Entries(lines, files)[i])
  {
    hide ReadAs, Picks, Forgotten;
    picks := [];
    if lines == [] {
      NoPicks();
    } else {
      var init, last := lines[..|lines| - 1], lines[|lines| - 1];
      var before := EntriesExactly(init, files);
      assert lines == init + [last];
      PicksOneMore(init, last, before);
      picks := before + if last.Entry? then [|init|] else [];
      if last.Entry? {
        ForgottenReads(files, last.entry);
      }
      assert forall i | 0 <= i < |before| ::
          picks[i] == before[i] && before[i] in before && lines[before[i]] == init[before[i]];
    }
  }

  lemma {:induction false} ForgottenReads(files: Files, entry: JournalEntry)
    ensures ReadAs(files, entry, Forgotten(files, entry))
  {
  }

  lemma {:induction false} NoPicks()
    ensures Picks([], [])
  {
  }

  lemma {:induction false} PicksOneMore(lines: seq<Line>, last: Line, picks: seq<nat>)
    requires Picks(lines, picks)
    ensures Picks(lines + [last], picks + if last.Entry? then [|lines|] else [])
  {
    var all, more := lines + [last], picks + if last.Entry? then [|lines|] else [];
    forall i | 0 <= i < |picks| ensures picks[i] < |lines| {
      assert picks[i] in picks;
    }
    forall k: nat ensures k in more <==> k < |all| && all[k].Entry? {
      assert k in more <==> k in picks || (k == |lines| && last.Entry?);
      assert k < |lines| ==> all[k] == lines[k];
    }
  }
}
