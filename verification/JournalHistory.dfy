/** Whole histories of the journal: when each image set has its line. */
module JournalHistories {
  import opened Wrappers
  import opened Text
  import opened Disks
  import opened JournalPaths
  import opened Journals
  import opened JournalImages
  import opened RunJournals

  /** An append that returned, or one that stopped once `n` bytes of its line were written. */
  datatype Op =
    | Append(id: string, record: RunRecord)
    | Tear(id: string, record: RunRecord, n: nat)

  ghost predicate ValidOp(setup: Setup, op: Op) {
    && StaysInside(op.record.documents) && Named(op.record.documents)
    && (op.Tear? ==> op.n <= |LineText(setup.codec, EntryOf(op.record, op.id, setup.limits))|)
  }

  ghost predicate ValidOps(setup: Setup, ops: seq<Op>) {
    && (forall i | 0 <= i < |ops| :: ValidOp(setup, ops[i]))
    && forall i, j | 0 <= i < j < |ops| :: ops[i].id != ops[j].id
  }

  ghost function Next(setup: Setup, s: JournalState, op: Op): JournalState
    requires ValidOp(setup, op)
  {
    match op
    case Append(id, record) => Appended(setup, s, id, record)
    case Tear(id, record, n) => Torn(setup, s, id, record, n)
  }

  ghost function Run(setup: Setup, ops: seq<Op>): JournalState
    requires ValidOps(setup, ops)
  {
    if ops == [] then JournalState(LogFile([], []), map[])
    else Next(setup, Run(setup, ops[..|ops| - 1]), ops[|ops| - 1])
  }

  function Reported(ops: seq<Op>): (records: map<string, RunRecord>)
    ensures forall id :: id in records <==> exists i | 0 <= i < |ops| :: ops[i].id == id
    ensures forall id | id in records :: exists i | 0 <= i < |ops| :: records[id] == ops[i].record
  {
    if ops == [] then map[]
    else
      var last := |ops| - 1;
      assert forall i | 0 <= i < last :: ops[..last][i] == ops[i];
      Reported(ops[..last])[ops[last].id := ops[last].record]
  }

  // ----- images without a line -----

  predicate HasSet(line: Line, files: Files) {
    line.Entry? && IsDir(files, SetDir(line.entry.id))
  }

  ghost predicate Covers(lines: seq<Line>, files: Files) {
    forall id | IsDir(files, SetDir(id)) :: HasLine(lines, id)
  }

  /** Every image set on disk is named by a line readers find. */
  ghost predicate AllListed(setup: Setup, s: JournalState) {
    Covers(AllLines(setup.codec, s.log), s.files)
  }

  predicate WritesImages(setup: Setup, record: RunRecord) {
    !TooLarge(record, setup.limits) && HasImages(record.documents)
  }

  predicate AnySet(lines: seq<Line>, files: Files) {
    exists i | 0 <= i < |lines| :: HasSet(lines[i], files)
  }

  /** The lines that go when one more is kept. */
  function Dropped(lines: seq<Line>, max: nat): (gone: seq<Line>)
    ensures gone <= lines
  {
    if |lines| < max then [] else if max == 0 then lines else lines[..|lines| + 1 - max]
  }

  /** What can be seen before the call: it compacts away a line whose set is on disk, it keeps no line
      for the set it writes, or it writes after unfinished text that either of them needs. */
  ghost predicate Orphans(setup: Setup, s: JournalState, op: Op)
    requires Named(op.record.documents)
  {
    var codec, tail, max := setup.codec, s.log.tail, setup.limits.maxEntries;
    var spoils := AnySet(TailLines(codec, tail), s.files);
    match op
    case Append(id, record) =>
      || spoils || (tail != [] && WritesImages(setup, record))
      || (Readable(codec, s.log) &&
          (AnySet(Dropped(s.log.lines, max), s.files) || (max == 0 && WritesImages(setup, record))))
    case Tear(id, record, n) =>
      || (n > 0 && spoils)
      || (WritesImages(setup, record) &&
          (tail != [] || n < |codec.render(EntryOf(record, id, setup.limits))|))
  }

  // ----- one step -----

  ghost predicate OneMoreDir(files: Files, written: Files, id: string, wrote: bool) {
    forall x :: IsDir(written, SetDir(x)) <==> IsDir(files, SetDir(x)) || (x == id && wrote)
  }

  /** `after` holds the lines of `before` but those in `gone`, and perhaps one of the id `id`. */
  ghost predicate LosesLines(before: seq<Line>, after: seq<Line>, gone: seq<Line>, id: string) {
    && !HasLine(before, id) && !HasLine(gone, id)
    && forall x | x != id ::
         && (HasLine(before, x) <==> HasLine(after, x) || HasLine(gone, x))
         && !(HasLine(after, x) && HasLine(gone, x))
  }

  lemma {:induction false} SetHasLine(lines: seq<Line>, files: Files)
    ensures AnySet(lines, files) <==> exists x :: IsDir(files, SetDir(x)) && HasLine(lines, x)
  {
    hide IsDir;
    if i :| 0 <= i < |lines| && HasSet(lines[i], files) {
      assert HasLine(lines, lines[i].entry.id);
    }
    if x :| IsDir(files, SetDir(x)) && HasLine(lines, x) {
      var i :| 0 <= i < |lines| && lines[i].Entry? && lines[i].entry.id == x;
      assert HasSet(lines[i], files);
    }
  }

  lemma {:induction false} CoverExactly(
      before: seq<Line>, after: seq<Line>, gone: seq<Line>, files: Files, written: Files, id: string, wrote: bool)
    requires LosesLines(before, after, gone, id) && OneMoreDir(files, written, id, wrote)
    requires !IsDir(files, SetDir(id))
    ensures Covers(after, written) <==>
            Covers(before, files) && !AnySet(gone, files) && (wrote ==> HasLine(after, id))
  {
    hide IsDir, HasLine;
    SetHasLine(gone, files);
  }

  lemma {:induction false} WrittenDirs(
      setup: Setup, files: Files, records: map<string, RunRecord>, id: string, record: RunRecord)
    requires Absolute(setup.dir) && StaysInside(record.documents) && id !in records
    requires forall x :: SetIntact(setup, files, records, x)
    ensures !IsDir(files, SetDir(id))
    ensures OneMoreDir(files, Written(setup, files, id, record), id, WritesImages(setup, record))
  {
    hide StaysInside, Intact, HasImages;
    var docs := record.documents;
    assert SetIntact(setup, files, records, id);
    NoFilesNoDir(files, id);
    if !TooLarge(record, setup.limits) {
      var written := WriteSet(files, setup.dir, id, docs, |docs|);
      assert docs[..|docs|] == docs;
      WriteSetHasDir(files, setup.dir, id, docs, |docs|);
      forall x | x != id
        ensures IsDir(written, SetDir(x)) <==> IsDir(files, SetDir(x))
      {
        OtherDirStays(files, setup.dir, id, docs, x);
      }
    }
  }

  lemma {:induction false} NoFilesNoDir(files: Files, id: string)
    requires FilesBelow(files, SetDir(id)) == {}
    ensures !IsDir(files, SetDir(id))
  {
    forall p | p in files
      ensures !Within(SetDir(id), p)
    {
      assert p !in FilesBelow(files, SetDir(id));
    }
  }

  lemma {:induction false} OtherDirStays(files: Files, dir: Path, id: string, docs: seq<RecordedDoc>, x: string)
    requires Absolute(dir) && StaysInside(docs) && x != id
    ensures IsDir(WriteSet(files, dir, id, docs, |docs|), SetDir(x)) <==> IsDir(files, SetDir(x))
  {
    hide StaysInside, WriteSet;
    var alone, written := WriteSet(map[], dir, id, docs, |docs|), WriteSet(files, dir, id, docs, |docs|);
    forall p | Within(SetDir(x), p)
      ensures p in written <==> p in files
    {
      WriteSetOver(files, dir, id, docs, |docs|, p);
      if p in alone {
        WriteSetStaysInside(dir, id, docs, |docs|, p);
        OneSetDir(id, x, p);
      }
    }
  }

  lemma {:induction false} HasLineAppend(a: seq<Line>, b: seq<Line>, id: string)
    ensures HasLine(a + b, id) <==> HasLine(a, id) || HasLine(b, id)
  {
    var all := a + b;
    if HasLine(a, id) {
      HasLineShifted(all, a, 0, id);
    }
    if HasLine(b, id) {
      HasLineShifted(all, b, |a|, id);
    }
    if i :| 0 <= i < |all| && all[i].Entry? && all[i].entry.id == id {
      assert if i < |a| then a[i] == all[i] else b[i - |a|] == all[i];
    }
  }

  lemma {:induction false} DistinctApart(a: seq<Line>, b: seq<Line>, id: string)
    requires DistinctIds(a + b)
    ensures !(HasLine(a, id) && HasLine(b, id)) && DistinctIds(a)
  {
    var all := a + b;
    assert forall i | 0 <= i < |a| :: all[i] == a[i];
    assert forall i | 0 <= i < |b| :: all[|a| + i] == b[i];
  }

  lemma {:induction false} OneHasLine(line: Line, id: string)
    ensures HasLine([line], id) <==> line.Entry? && line.entry.id == id
    ensures !HasLine([], id)
  {
    if line.Entry? && line.entry.id == id {
      assert [line][0] == line;
    }
  }

  /** Lines `kept`, out of those before, and at most a new one under `id`. */
  lemma {:induction false} LosesExactly(
      gone: seq<Line>, kept: seq<Line>, tail: seq<Line>, last: seq<Line>, id: string)
    requires DistinctIds(gone + kept + tail) && !HasLine(gone + kept + tail, id)
    requires forall x | x != id :: !HasLine(last, x)
    ensures LosesLines(gone + kept + tail, kept + last, gone + tail, id)
    ensures HasLine(kept + last, id) <==> HasLine(last, id)
  {
    hide HasLine, DistinctIds;
    forall x
      ensures HasLine(gone + kept + tail, x) <==> HasLine(gone, x) || HasLine(kept, x) || HasLine(tail, x)
      ensures HasLine(kept + last, x) <==> HasLine(kept, x) || HasLine(last, x)
      ensures HasLine(gone + tail, x) <==> HasLine(gone, x) || HasLine(tail, x)
      ensures !(HasLine(kept, x) && (HasLine(gone, x) || HasLine(tail, x)))
    {
      HasLineAppend(gone + kept, tail, x);
      HasLineAppend(gone, kept, x);
      HasLineAppend(kept, last, x);
      HasLineAppend(gone, tail, x);
      DistinctApart(gone + kept, tail, x);
      DistinctApart(gone, kept, x);
    }
  }

  lemma {:induction false} AnySetAppend(a: seq<Line>, b: seq<Line>, files: Files)
    ensures AnySet(a + b, files) <==> AnySet(a, files) || AnySet(b, files)
  {
    hide HasSet;
    var all := a + b;
    assert forall i | 0 <= i < |a| :: all[i] == a[i];
    assert forall i | 0 <= i < |b| :: all[|a| + i] == b[i];
  }

  /** Evicting takes only sets that are listed, so it leaves no other set without a line. */
  lemma {:induction false} EvictionCovers(lines: seq<Line>, files: Files, limits: JournalLimits)
    ensures Covers(lines, Evicted(lines, files, limits)) <==> Covers(lines, files)
  {
    hide RemoveSets, IsDir, Surplus, HasLine;
    var gone := Listed(lines, files)[..Surplus(files, Listed(lines, files), limits)];
    forall id
      ensures IsDir(RemoveSets(files, gone), SetDir(id)) <==> IsDir(files, SetDir(id)) && id !in gone
      ensures id in gone ==> HasLine(lines, id)
    {
      SetAfterRemoval(files, gone, id);
      ListedIn(lines, files, id);
    }
  }

  /** A step keeps every set on disk listed if and only if it did not orphan one. */
  lemma {:induction false} StepExactly(
      setup: Setup, s: JournalState, history: seq<Line>, records: map<string, RunRecord>, op: Op)
    requires SoundJournal(setup, s, history, records) && Tame(records)
    requires op.id !in records && ValidOp(setup, op)
    ensures AllListed(setup, Next(setup, s, op)) <==> AllListed(setup, s) && !Orphans(setup, s, op)
  {
    hide *;
    var codec := setup.codec;
    var files, lines, tail := s.files, s.log.lines, TailLines(codec, s.log.tail);
    var written, wrote := Written(setup, files, op.id, op.record), WritesImages(setup, op.record);
    SoundParts(setup, s, history, records);
    KeptDistinct(setup, s, history, records);
    DistinctOf(setup, s, records);
    OpParts(setup, op);
    ImagedParts(setup, files, records);
    WrittenDirs(setup, files, records, op.id, op.record);
    FreshLine(codec, s.log, records, op.id, setup.limits);
    AllLinesAre(codec, s.log);
    match op {
      case Append(id, record) =>
        AppendLoses(setup, s, history, records, id, record);
        var after := Appended(setup, s, id, record);
        var gone := if Readable(codec, s.log) then Dropped(lines, setup.limits.maxEntries) else [];
        CoverExactly(lines + tail, after.log.lines, gone + tail, files, written, id, wrote);
        AnySetAppend(gone, tail, files);
        NoSets(files);
        AppendOrphans(setup, s, op);
      case Tear(id, record, n) =>
        var torn := Torn(setup, s, id, record, n);
        TearLoses(setup, s, records, id, record, n);
        var gone := if n > 0 then tail else [];
        CoverExactly(lines + tail, AllLines(codec, torn.log), gone, files, written, id, wrote);
        NoSets(files);
        TearOrphans(setup, s, op);
    }
  }

  lemma {:induction false} NoSets(files: Files)
    ensures !AnySet([], files)
  {
  }

  lemma {:induction false} AllLinesAre(codec: Codec, log: LogFile)
    ensures AllLines(codec, log) == log.lines + TailLines(codec, log.tail)
  {
  }

  lemma {:induction false} DistinctOf(setup: Setup, s: JournalState, records: map<string, RunRecord>)
    requires SoundLines(AllLines(setup.codec, s.log), records, setup.limits)
    ensures DistinctIds(AllLines(setup.codec, s.log))
  {
  }

  lemma {:induction false} OpParts(setup: Setup, op: Op)
    requires ValidOp(setup, op)
    ensures StaysInside(op.record.documents) && Named(op.record.documents)
    ensures op.Tear? ==> op.n <= |LineText(setup.codec, EntryOf(op.record, op.id, setup.limits))|
  {
  }

  lemma {:induction false} ImagedParts(setup: Setup, files: Files, records: map<string, RunRecord>)
    requires Imaged(setup, files, records) && Tame(records)
    ensures forall id :: SetIntact(setup, files, records, id)
  {
  }

  lemma {:induction false} AppendOrphans(setup: Setup, s: JournalState, op: Op)
    requires op.Append? && ValidOp(setup, op)
    ensures var codec, max, after := setup.codec, setup.limits.maxEntries, Appended(setup, s, op.id, op.record);
            && Next(setup, s, op) == after
            && (after.log.tail == [] ==> (AllListed(setup, after) <==> Covers(after.log.lines, after.files)))
            && (AllListed(setup, s) <==> Covers(s.log.lines + TailLines(codec, s.log.tail), s.files))
            && (Orphans(setup, s, op) <==>
                || AnySet(TailLines(codec, s.log.tail), s.files)
                || (s.log.tail != [] && WritesImages(setup, op.record))
                || (Readable(codec, s.log) &&
                    (AnySet(Dropped(s.log.lines, max), s.files) || (max == 0 && WritesImages(setup, op.record)))))
  {
    hide Appended, Covers, WritesImages, AnySet, TailLines, Dropped, Readable;
    var after := Appended(setup, s, op.id, op.record);
    assert TailLines(setup.codec, []) == [] by {
      NoTail(setup.codec, LogFile([], []));
      AllLinesAre(setup.codec, LogFile([], []));
    }
    assert after.log.lines + [] == after.log.lines;
  }

  lemma {:induction false} TearOrphans(setup: Setup, s: JournalState, op: Op)
    requires op.Tear? && ValidOp(setup, op)
    ensures var codec, torn := setup.codec, Torn(setup, s, op.id, op.record, op.n);
            && Next(setup, s, op) == torn && torn.files == Written(setup, s.files, op.id, op.record)
            && (AllListed(setup, torn) <==> Covers(AllLines(codec, torn.log), torn.files))
            && (AllListed(setup, s) <==> Covers(s.log.lines + TailLines(codec, s.log.tail), s.files))
            && (Orphans(setup, s, op) <==>
                || (op.n > 0 && AnySet(TailLines(codec, s.log.tail), s.files))
                || (WritesImages(setup, op.record) &&
                    (s.log.tail != [] || op.n < |codec.render(EntryOf(op.record, op.id, setup.limits))|)))
  {
    hide Written, Covers, WritesImages, AnySet, TailLines, Feed, EntryOf;
  }

  /** What an append does to the lines and to the sets. */
  lemma {:induction false} AppendLoses(
      setup: Setup, s: JournalState, history: seq<Line>, records: map<string, RunRecord>, id: string, record: RunRecord)
    requires SoundJournal(setup, s, history, records) && id !in records && Named(record.documents)
    requires DistinctIds(s.log.lines + TailLines(setup.codec, s.log.tail))
    requires !HasLine(s.log.lines + TailLines(setup.codec, s.log.tail), id)
    ensures var after, max := Appended(setup, s, id, record), setup.limits.maxEntries;
            var tail := TailLines(setup.codec, s.log.tail);
            var gone := if Readable(setup.codec, s.log) then Dropped(s.log.lines, max) else [];
            && after.log.tail == []
            && LosesLines(s.log.lines + tail, after.log.lines, gone + tail, id)
            && (HasLine(after.log.lines, id) <==>
                s.log.tail == [] && (max >= 1 || !Readable(setup.codec, s.log)))
            && (Covers(after.log.lines, after.files) <==>
                Covers(after.log.lines, Written(setup, s.files, id, record)))
  {
    hide *;
    var codec, lines, max := setup.codec, s.log.lines, setup.limits.maxEntries;
    var entry := EntryOf(record, id, setup.limits);
    var tail, line := TailLines(codec, s.log.tail), Completed(codec, s.log.tail, entry);
    var after, written := Appended(setup, s, id, record), Written(setup, s.files, id, record);
    AppendKeeps(setup, s, history, records, id, record);
    CompletedIs(codec, s.log.tail, entry);
    EntryId(record, id, setup.limits);
    forall x
      ensures HasLine([line], x) <==> s.log.tail == [] && x == id
      ensures !HasLine([], x)
    {
      OneHasLine(line, x);
    }
    if Readable(codec, s.log) {
      var gone := Dropped(lines, max);
      KeptLines(lines, line, max);
      assert lines == gone + lines[|gone|..];
      LosesExactly(gone, lines[|gone|..], tail, if max >= 1 then [line] else [], id);
      EvictionCovers(after.log.lines, written, setup.limits);
    } else {
      assert [] + lines == lines && [] + tail == tail;
      LosesExactly([], lines, tail, [line], id);
    }
  }

  lemma {:induction false} KeptLines(lines: seq<Line>, line: Line, max: nat)
    ensures LastLines(lines + [line], max) == lines[|Dropped(lines, max)|..] + if max >= 1 then [line] else []
  {
  }

  lemma {:induction false} TearLoses(
      setup: Setup, s: JournalState, records: map<string, RunRecord>, id: string, record: RunRecord, n: nat)
    requires ValidSetup(setup) && Begun(s.log.tail) && Named(record.documents)
    requires n <= |LineText(setup.codec, EntryOf(record, id, setup.limits))|
    requires DistinctIds(s.log.lines + TailLines(setup.codec, s.log.tail))
    requires !HasLine(s.log.lines + TailLines(setup.codec, s.log.tail), id)
    ensures var codec, tail, torn := setup.codec, TailLines(setup.codec, s.log.tail), Torn(setup, s, id, record, n);
            var all := AllLines(codec, torn.log);
            && LosesLines(s.log.lines + tail, all, if n > 0 then tail else [], id)
            && (HasLine(all, id) <==> s.log.tail == [] && n >= |codec.render(EntryOf(record, id, setup.limits))|)
  {
    hide *;
    var codec, entry, lines := setup.codec, EntryOf(record, id, setup.limits), s.log.lines;
    var tail, last := TailLines(codec, s.log.tail), TailAfter(codec, s.log.tail, entry, n);
    ValidSetupParts(setup);
    FeedPart(codec, s.log, entry, n);
    TornIs(setup, s, id, record, n);
    EntryId(record, id, setup.limits);
    TailAfterHas(codec, s.log.tail, entry, n);
    assert [] + lines == lines && [] + tail == tail;
    if n == 0 {
      forall x
        ensures !HasLine([], x)
      {
        OneHasLine(Entry(entry), x);
      }
      var all := lines + tail;
      var none: seq<Line> := [];
      assert none + all + none == all && all + none == all && none + none == none;
      LosesExactly([], all, [], [], id);
    } else {
      LosesExactly([], lines, tail, last, id);
    }
  }

  lemma {:induction false} ValidSetupParts(setup: Setup)
    requires ValidSetup(setup)
    ensures LineCodec(setup.codec) && Absolute(setup.dir)
  {
  }

  lemma {:induction false} TailAfterHas(codec: Codec, tail: Bytes, entry: JournalEntry, n: nat)
    requires LineCodec(codec) && n <= |LineText(codec, entry)|
    ensures n == 0 ==> TailAfter(codec, tail, entry, n) == TailLines(codec, tail)
    ensures n == 0 ==> n < |codec.render(entry)|
    ensures n > 0 ==> forall x :: HasLine(TailAfter(codec, tail, entry, n), x) <==>
                                  tail == [] && n >= |codec.render(entry)| && x == entry.id
  {
    assert Renders(codec, entry);
    forall x | n > 0
      ensures HasLine(TailAfter(codec, tail, entry, n), x) <==>
              tail == [] && n >= |codec.render(entry)| && x == entry.id
    {
      OneHasLine(TailAfter(codec, tail, entry, n)[0], x);
    }
  }

  // ----- histories -----

  ghost predicate Reached(setup: Setup, s: JournalState, records: map<string, RunRecord>) {
    exists history :: SoundJournal(setup, s, history, records)
  }

  lemma {:induction false} RunOneMore(setup: Setup, ops: seq<Op>)
    requires ValidOps(setup, ops) && ops != []
    ensures var init, op := ops[..|ops| - 1], ops[|ops| - 1];
            && ValidOps(setup, init) && ValidOp(setup, op) && op.id !in Reported(init)
            && Run(setup, ops) == Next(setup, Run(setup, init), op)
            && Reported(ops) == Reported(init)[op.id := op.record]
  {
    hide ValidOp, Next;
    var init, op := ops[..|ops| - 1], ops[|ops| - 1];
    assert forall i | 0 <= i < |init| :: init[i] == ops[i];
  }

  /** Every history leaves a sound journal. */
  lemma {:induction false} RunIsSound(setup: Setup, ops: seq<Op>)
    requires ValidSetup(setup) && ValidOps(setup, ops)
    ensures Reached(setup, Run(setup, ops), Reported(ops)) && Tame(Reported(ops))
  {
    hide *;
    if ops == [] {
      EmptyRun(setup);
    } else {
      var init, op := ops[..|ops| - 1], ops[|ops| - 1];
      RunOneMore(setup, ops);
      RunIsSound(setup, init);
      StepKeeps(setup, Run(setup, init), Reported(init), op);
    }
  }

  lemma {:induction false} EmptyRun(setup: Setup)
    requires ValidSetup(setup)
    ensures ValidOps(setup, []) && Run(setup, []) == JournalState(LogFile([], []), map[]) && Reported([]) == map[]
    ensures Reached(setup, Run(setup, []), map[]) && Tame(map[]) && NeverOrphans(setup, [])
    ensures AllListed(setup, Run(setup, [])) && AllEmpty(Run(setup, []).files)
    ensures Readable(setup.codec, Run(setup, []).log)
  {
    EmptyIsSound(setup);
  }

  lemma {:induction false} EmptyIsSound(setup: Setup)
    requires ValidSetup(setup)
    ensures SoundJournal(setup, JournalState(LogFile([], []), map[]), [], map[])
  {
    hide LineCodec, Recorded, Within;
    var none: seq<Line> := [];
    assert none + TailLines(setup.codec, []) == none;
  }

  lemma {:induction false} StepKeeps(setup: Setup, s: JournalState, records: map<string, RunRecord>, op: Op)
    requires Reached(setup, s, records) && op.id !in records && ValidOp(setup, op) && Tame(records)
    ensures Reached(setup, Next(setup, s, op), records[op.id := op.record]) && Tame(records[op.id := op.record])
  {
    hide *;
    OpParts(setup, op);
    NextIs(setup, s, op);
    MoreTame(records, op.id, op.record);
    var history := HistoryOf(setup, s, records);
    if op.Append? {
      AppendKeeps(setup, s, history, records, op.id, op.record);
      var line := Completed(setup.codec, s.log.tail, EntryOf(op.record, op.id, setup.limits));
      ReachedBy(setup, Next(setup, s, op), history + [line], records[op.id := op.record]);
    } else {
      var entry := EntryOf(op.record, op.id, setup.limits);
      TornKeeps(setup, s, history, records, op.id, op.record, op.n);
      var whole := op.n == |LineText(setup.codec, entry)|;
      var ended := if whole then [Completed(setup.codec, s.log.tail, entry)] else [];
      ReachedBy(setup, Next(setup, s, op), history + ended, records[op.id := op.record]);
    }
  }

  lemma {:induction false} ReachedBy(
      setup: Setup, s: JournalState, history: seq<Line>, records: map<string, RunRecord>)
    requires SoundJournal(setup, s, history, records)
    ensures Reached(setup, s, records)
  {
    hide SoundJournal;
  }

  lemma {:induction false} HistoryOf(setup: Setup, s: JournalState, records: map<string, RunRecord>)
    returns (history: seq<Line>)
    requires Reached(setup, s, records)
    ensures SoundJournal(setup, s, history, records)
  {
    hide SoundJournal;
    history :| SoundJournal(setup, s, history, records);
  }

  lemma {:induction false} MoreTame(records: map<string, RunRecord>, id: string, record: RunRecord)
    requires Tame(records) && StaysInside(record.documents)
    ensures Tame(records[id := record])
  {
    hide StaysInside;
  }

  lemma {:induction false} NextIs(setup: Setup, s: JournalState, op: Op)
    requires ValidOp(setup, op)
    ensures op.Append? ==> Next(setup, s, op) == Appended(setup, s, op.id, op.record)
    ensures op.Tear? ==> Next(setup, s, op) == Torn(setup, s, op.id, op.record, op.n)
  {
  }

  ghost predicate NeverOrphans(setup: Setup, ops: seq<Op>)
    requires ValidOps(setup, ops)
  {
    forall k | 0 <= k < |ops| :: !Orphans(setup, Run(setup, ops[..k]), ops[k])
  }

  /** Over every history: each image set on disk has its line if and only if no step orphaned one. */
  lemma {:induction false} ListedExactly(setup: Setup, ops: seq<Op>)
    requires ValidSetup(setup) && ValidOps(setup, ops)
    ensures AllListed(setup, Run(setup, ops)) <==> NeverOrphans(setup, ops)
  {
    hide *;
    if ops == [] {
      EmptyRun(setup);
    } else {
      var init, op := ops[..|ops| - 1], ops[|ops| - 1];
      RunOneMore(setup, ops);
      OpParts(setup, op);
      ListedExactly(setup, init);
      RunIsSound(setup, init);
      var history := HistoryOf(setup, Run(setup, init), Reported(init));
      StepExactly(setup, Run(setup, init), history, Reported(init), op);
      NeverOneMore(setup, ops);
    }
  }

  lemma {:induction false} NeverOneMore(setup: Setup, ops: seq<Op>)
    requires ValidOps(setup, ops) && ops != [] && ValidOps(setup, ops[..|ops| - 1])
    ensures var init, op := ops[..|ops| - 1], ops[|ops| - 1];
            NeverOrphans(setup, ops) <==>
            NeverOrphans(setup, init) && Named(op.record.documents) && !Orphans(setup, Run(setup, init), op)
  {
    hide Orphans, Run;
    var init := ops[..|ops| - 1];
    assert forall k | 0 <= k < |init| :: ops[..k] == init[..k] && ops[k] == init[k];
  }

  ghost predicate OnDisk(files: Files, ids: seq<string>) {
    && (forall i | 0 <= i < |ids| :: IsDir(files, SetDir(ids[i])))
    && forall i, j | 0 <= i < j < |ids| :: ids[i] != ids[j]
  }

  /** If no step orphaned a set, then after an append that succeeds any image sets on disk fit both
      budgets: the budgets bound the disk and not only what is listed. */
  lemma {:induction false} BudgetsBoundTheDisk(setup: Setup, ops: seq<Op>, ids: seq<string>)
    requires ValidSetup(setup) && ValidOps(setup, ops) && NeverOrphans(setup, ops)
    requires ops != [] && ops[|ops| - 1].Append? && Readable(setup.codec, Run(setup, ops).log)
    requires OnDisk(Run(setup, ops).files, ids)
    ensures |ids| <= setup.limits.maxImageSets && SetsBytes(Run(setup, ops).files, ids) <= setup.limits.maxImageBytes
  {
    hide *;
    ListedExactly(setup, ops);
    var init, op := ops[..|ops| - 1], ops[|ops| - 1];
    RunOneMore(setup, ops);
    RunIsSound(setup, init);
    OpParts(setup, op);
    NextIs(setup, Run(setup, init), op);
    var history := HistoryOf(setup, Run(setup, init), Reported(init));
    AppendKeeps(setup, Run(setup, init), history, Reported(init), op.id, op.record);
    var s := Run(setup, ops);
    NoTail(setup.codec, s.log);
    NewestAre(s, Written(setup, Run(setup, init).files, op.id, op.record), setup.limits);
    FitWhenListed(setup, s, ids);
    BudgetMeans(s.files, ids, setup.limits);
  }

  lemma {:induction false} BudgetMeans(files: Files, ids: seq<string>, limits: JournalLimits)
    ensures WithinBudget(files, ids, limits) <==>
            |ids| <= limits.maxImageSets && SetsBytes(files, ids) <= limits.maxImageBytes
  {
  }

  lemma {:induction false} FitWhenListed(setup: Setup, s: JournalState, ids: seq<string>)
    requires AllListed(setup, s) && AllLines(setup.codec, s.log) == s.log.lines && OnDisk(s.files, ids)
    requires WithinBudget(s.files, Listed(s.log.lines, s.files), setup.limits)
    ensures WithinBudget(s.files, ids, setup.limits)
  {
    hide IsDir, SetBytes, Listed, HasLine, AllLines;
    var listed := Listed(s.log.lines, s.files);
    forall i | 0 <= i < |ids|
      ensures ids[i] in listed
    {
      ListedIn(s.log.lines, s.files, ids[i]);
    }
    FewerSets(s.files, ids, listed);
  }

  /** Distinct sets among those listed are no more, and no larger. */
  lemma {:induction false} FewerSets(files: Files, ids: seq<string>, all: seq<string>)
    requires forall i | 0 <= i < |ids| :: ids[i] in all
    requires forall i, j | 0 <= i < j < |ids| :: ids[i] != ids[j]
    ensures |ids| <= |all| && SetsBytes(files, ids) <= SetsBytes(files, all)
  {
    hide SetBytes;
    if ids != [] {
      var k :| 0 <= k < |all| && all[k] == ids[0];
      var rest := all[..k] + all[k + 1..];
      forall i | 0 <= i < |ids[1..]|
        ensures ids[1..][i] in rest
      {
        var m :| 0 <= m < |all| && all[m] == ids[i + 1];
        assert rest[if m < k then m else m - 1] == all[m];
      }
      FewerSets(files, ids[1..], rest);
      SetsBytesWithout(files, all, k);
    }
  }

  lemma {:induction false} SetsBytesWithout(files: Files, ids: seq<string>, k: nat)
    requires k < |ids|
    ensures SetsBytes(files, ids) == SetBytes(files, ids[k]) + SetsBytes(files, ids[..k] + ids[k + 1..])
  {
    hide SetBytes;
    if k == 0 {
      assert ids[..0] + ids[1..] == ids[1..];
    } else {
      SetsBytesWithout(files, ids[1..], k - 1);
      var rest := ids[..k] + ids[k + 1..];
      assert rest[1..] == ids[1..][..k - 1] + ids[1..][k..];
    }
  }

  /** Without crashes, and with room for a line, an append orphans a set exactly when the journal is full
      and the set of its oldest line is on disk. */
  lemma {:induction false} AppendsOrphanExactly(setup: Setup, ops: seq<Op>, op: Op)
    requires ValidSetup(setup) && ValidOps(setup, ops) && ValidOp(setup, op) && op.Append?
    requires setup.limits.maxEntries >= 1 && forall i | 0 <= i < |ops| :: ops[i].Append?
    ensures var s := Run(setup, ops);
            && s.log.tail == [] && Readable(setup.codec, s.log) && |s.log.lines| <= setup.limits.maxEntries
            && (Orphans(setup, s, op) <==>
                |s.log.lines| == setup.limits.maxEntries && HasSet(s.log.lines[0], s.files))
  {
    hide HasSet, WritesImages;
    AppendsReadable(setup, ops);
    var s := Run(setup, ops);
    NoSets(s.files);
    if |s.log.lines| == setup.limits.maxEntries {
      assert Dropped(s.log.lines, setup.limits.maxEntries) == [s.log.lines[0]];
    }
  }

  lemma {:induction false} AppendsReadable(setup: Setup, ops: seq<Op>)
    requires ValidSetup(setup) && ValidOps(setup, ops) && forall i | 0 <= i < |ops| :: ops[i].Append?
    ensures var s := Run(setup, ops);
            s.log.tail == [] && Readable(setup.codec, s.log) && |s.log.lines| <= setup.limits.maxEntries
  {
    hide *;
    if ops == [] {
      EmptyRun(setup);
    } else {
      var init, op := ops[..|ops| - 1], ops[|ops| - 1];
      RunOneMore(setup, ops);
      AppendsReadable(setup, init);
      RunIsSound(setup, init);
      OpParts(setup, op);
      NextIs(setup, Run(setup, init), op);
      var history := HistoryOf(setup, Run(setup, init), Reported(init));
      AppendKeeps(setup, Run(setup, init), history, Reported(init), op.id, op.record);
      LastLinesFew(Run(setup, init).log.lines, Run(setup, ops).log.lines,
                   Completed(setup.codec, [], EntryOf(op.record, op.id, setup.limits)), setup.limits.maxEntries);
    }
  }

  lemma {:induction false} LastLinesFew(lines: seq<Line>, kept: seq<Line>, line: Line, max: nat)
    requires kept == LastLines(lines + [line], max)
    ensures |kept| <= max
  {
  }

  /** A set without a line is never counted and never removed. */
  lemma {:induction false} OrphansStay(
      setup: Setup, s: JournalState, history: seq<Line>, records: map<string, RunRecord>, op: Op, x: string)
    requires SoundJournal(setup, s, history, records) && Tame(records)
    requires op.id !in records && ValidOp(setup, op)
    requires IsDir(s.files, SetDir(x)) && !HasLine(AllLines(setup.codec, s.log), x)
    ensures var after := Next(setup, s, op);
            IsDir(after.files, SetDir(x)) && !HasLine(AllLines(setup.codec, after.log), x)
  {
    hide *;
    var codec := setup.codec;
    SoundParts(setup, s, history, records);
    KeptDistinct(setup, s, history, records);
    DistinctOf(setup, s, records);
    OpParts(setup, op);
    NextIs(setup, s, op);
    ImagedParts(setup, s.files, records);
    WrittenDirs(setup, s.files, records, op.id, op.record);
    FreshLine(codec, s.log, records, op.id, setup.limits);
    AllLinesAre(codec, s.log);
    var written := Written(setup, s.files, op.id, op.record);
    StillThere(s.files, written, op.id, WritesImages(setup, op.record), x);
    match op {
      case Append(id, record) =>
        AppendKeeps(setup, s, history, records, id, record);
        AppendLoses(setup, s, history, records, id, record);
        var after := Appended(setup, s, id, record);
        var gone := if Readable(codec, s.log) then Dropped(s.log.lines, setup.limits.maxEntries) else [];
        NotRegained(s.log.lines + TailLines(codec, s.log.tail), after.log.lines,
                    gone + TailLines(codec, s.log.tail), id, x);
        NoTail(codec, after.log);
        CompactedSetsStay(after.log.lines, written, setup.limits, x);
      case Tear(id, record, n) =>
        TearLoses(setup, s, records, id, record, n);
        TornIs(setup, s, id, record, n);
        NotRegained(s.log.lines + TailLines(codec, s.log.tail), AllLines(codec, Torn(setup, s, id, record, n).log),
                    if n > 0 then TailLines(codec, s.log.tail) else [], id, x);
    }
  }

  /** An append after unfinished text reports success, and its images are on disk for good with no line. */
  lemma {:induction false} LostAppend(
      setup: Setup, s: JournalState, history: seq<Line>, records: map<string, RunRecord>, id: string, record: RunRecord)
    requires SoundJournal(setup, s, history, records) && Tame(records)
    requires id !in records && ValidOp(setup, Append(id, record)) && WritesImages(setup, record)
    requires s.log.tail != []
    ensures var after := Appended(setup, s, id, record);
            && (Readable(setup.codec, after.log) <==> Readable(setup.codec, s.log))
            && IsDir(after.files, SetDir(id)) && !HasLine(AllLines(setup.codec, after.log), id)
  {
    hide *;
    var op := Append(id, record);
    SoundParts(setup, s, history, records);
    KeptDistinct(setup, s, history, records);
    DistinctOf(setup, s, records);
    OpParts(setup, op);
    ImagedParts(setup, s.files, records);
    WrittenDirs(setup, s.files, records, id, record);
    FreshLine(setup.codec, s.log, records, id, setup.limits);
    AllLinesAre(setup.codec, s.log);
    AppendKeeps(setup, s, history, records, id, record);
    AppendLoses(setup, s, history, records, id, record);
    var after, written := Appended(setup, s, id, record), Written(setup, s.files, id, record);
    NewThere(s.files, written, id, WritesImages(setup, record));
    NoTail(setup.codec, after.log);
    CompactedSetsStay(after.log.lines, written, setup.limits, id);
  }

  lemma {:induction false} NewThere(files: Files, written: Files, id: string, wrote: bool)
    requires OneMoreDir(files, written, id, wrote) && wrote
    ensures IsDir(written, SetDir(id))
  {
    hide IsDir;
  }

  lemma {:induction false} StillThere(files: Files, written: Files, id: string, wrote: bool, x: string)
    requires OneMoreDir(files, written, id, wrote) && IsDir(files, SetDir(x)) && !IsDir(files, SetDir(id))
    ensures IsDir(written, SetDir(x)) && x != id
  {
    hide IsDir;
  }

  lemma {:induction false} NotRegained(before: seq<Line>, after: seq<Line>, gone: seq<Line>, id: string, x: string)
    requires LosesLines(before, after, gone, id) && x != id && !HasLine(before, x)
    ensures !HasLine(after, x)
  {
    hide HasLine;
  }

  /** A set whose line has been compacted away is never counted and never removed. */
  lemma {:induction false} CompactedSetsStay(lines: seq<Line>, written: Files, limits: JournalLimits, id: string)
    requires !HasLine(lines, id)
    ensures id !in Listed(lines, written)
    ensures IsDir(Evicted(lines, written, limits), SetDir(id)) <==> IsDir(written, SetDir(id))
  {
    hide Surplus, RemoveSets;
    ListedIn(lines, written, id);
    SetAfterRemoval(written, Listed(lines, written)[..Surplus(written, Listed(lines, written), limits)], id);
  }

  // ----- a history over its budget -----

  const ONE_DOC: RunRecord :=
    RunRecord(Applied, [RecordedDoc(["project", "a.kicad_sch"], None, "r", Some([]), None)])

  const SMALL: JournalLimits := JournalLimits(1, 1, 100, 100)

  const TWICE: seq<Op> := [Append("a", ONE_DOC), Append("b", ONE_DOC)]

  /** With room for one line and one image set, two appends leave two image sets on disk. */
  lemma {:induction false} OrphanOutlivesItsLine(setup: Setup)
    requires ValidSetup(setup) && setup.limits == SMALL
    ensures ValidOps(setup, TWICE)
    ensures var files := Run(setup, TWICE).files;
            OnDisk(files, ["a", "b"]) && !WithinBudget(files, ["a", "b"], SMALL)
  {
    hide *;
    OneDocFacts(setup);
    EmptyRun(setup);
    TwiceIs(setup);
    var first, second := TWICE[..1], TWICE;
    RunOneMore(setup, first);
    RunOneMore(setup, second);
    NextIs(setup, Run(setup, []), first[0]);
    NextIs(setup, Run(setup, first), second[1]);
    OneAppend(setup, Run(setup, []), map[], "a");
    OneAppend(setup, Run(setup, first), map["a" := ONE_DOC], "b");
    BothOnDisk(Run(setup, []).files, Run(setup, first).files, Run(setup, TWICE).files);
  }

  lemma {:induction false} OneDocFacts(setup: Setup)
    requires ValidSetup(setup) && setup.limits == SMALL
    ensures Named(ONE_DOC.documents) && StaysInside(ONE_DOC.documents) && WritesImages(setup, ONE_DOC)
  {
    hide *;
    OneDocTail();
    PlainSettles(["a.kicad_sch"]);
    OneDocStays();
  }

  lemma {:induction false} OneDocTail()
    ensures Tail(ONE_DOC.documents, 0) == ["a.kicad_sch"] && PlainPath(["a.kicad_sch"])
    ensures DocumentPath(ONE_DOC.documents[0].path) && |ONE_DOC.documents| == 1
  {
    hide Climb, Settled;
    var docs := ONE_DOC.documents;
    assert SharedPrefix(PathsOf(docs)) == ["project"];
    assert Plain("a.kicad_sch") && Part("project");
    assert docs[0].path == ["project", "a.kicad_sch"];
  }

  lemma {:induction false} OneDocStays()
    requires Tail(ONE_DOC.documents, 0) == ["a.kicad_sch"] && Climb(["a.kicad_sch"]) == 0
    requires DocumentPath(ONE_DOC.documents[0].path) && |ONE_DOC.documents| == 1
    ensures Named(ONE_DOC.documents) && StaysInside(ONE_DOC.documents)
    ensures forall setup: Setup | setup.limits == SMALL :: WritesImages(setup, ONE_DOC)
  {
    hide Tail, DocumentPath, Climb;
    var docs := ONE_DOC.documents;
    assert docs[..0] == [];
    assert EntryBytes(docs) == 0;
    assert SideOf(docs[0], Pre).Some?;
    assert "a.kicad_sch" != ROOT by {
      assert |"a.kicad_sch"| > |ROOT|;
    }
  }

  lemma {:induction false} TwiceIs(setup: Setup)
    requires Named(ONE_DOC.documents) && StaysInside(ONE_DOC.documents)
    ensures ValidOps(setup, TWICE) && |TWICE| == 2 && ValidOps(setup, TWICE[..1]) && TWICE[..1][..0] == []
    ensures TWICE[0] == Append("a", ONE_DOC) && TWICE[1] == Append("b", ONE_DOC) && "a" != "b"
  {
    hide StaysInside, Named;
    assert "a"[0] != "b"[0];
  }

  ghost predicate AllEmpty(files: Files) {
    forall p | p in files :: files[p] == []
  }

  /** One append of the one document: its set and those before are on disk, and nothing is evicted. */
  lemma {:induction false} OneAppend(setup: Setup, s: JournalState, records: map<string, RunRecord>, id: string)
    requires setup.limits == SMALL && Reached(setup, s, records) && id !in records
    requires Named(ONE_DOC.documents) && StaysInside(ONE_DOC.documents) && WritesImages(setup, ONE_DOC)
    requires s.log.tail == [] && Readable(setup.codec, s.log) && AllEmpty(s.files) && Tame(records)
    ensures var after := Appended(setup, s, id, ONE_DOC);
            && Reached(setup, after, records[id := ONE_DOC])
            && after.log.tail == [] && Readable(setup.codec, after.log) && AllEmpty(after.files)
            && Tame(records[id := ONE_DOC])
            && OneMoreDir(s.files, after.files, id, true)
  {
    hide *;
    var history := HistoryOf(setup, s, records);
    var line := Completed(setup.codec, [], EntryOf(ONE_DOC, id, SMALL));
    AppendKeeps(setup, s, history, records, id, ONE_DOC);
    ReachedBy(setup, Appended(setup, s, id, ONE_DOC), history + [line], records[id := ONE_DOC]);
    SoundParts(setup, s, history, records);
    ImagedParts(setup, s.files, records);
    WrittenDirs(setup, s.files, records, id, ONE_DOC);
    var written := Written(setup, s.files, id, ONE_DOC);
    WrittenEmpty(setup, s.files, id);
    OneLineKept(s.log.lines, line, written);
    MoreTame(records, id, ONE_DOC);
  }

  lemma {:induction false} WrittenEmpty(setup: Setup, files: Files, id: string)
    requires AllEmpty(files)
    ensures AllEmpty(Written(setup, files, id, ONE_DOC))
  {
    hide ImageAt, TooLarge;
    var docs := ONE_DOC.documents;
    assert WriteSet(files, setup.dir, id, docs, 0) == files;
    assert AllEmpty(WriteSet(files, setup.dir, id, docs, 1));
  }

  lemma {:induction false} NoBytes(files: Files, paths: set<Path>)
    requires AllEmpty(files) && paths <= files.Keys
    ensures SumOver(files, paths) == 0
  {
    if paths != {} {
      var p :| p in paths;
      SumAnyOrder(files, paths, p);
      NoBytes(files, paths - {p});
    }
  }

  /** With one line left there is at most one set to count, and nothing to evict. */
  lemma {:induction false} OneLineKept(lines: seq<Line>, line: Line, files: Files)
    requires AllEmpty(files)
    ensures Evicted(LastLines(lines + [line], SMALL.maxEntries), files, SMALL) == files
  {
    hide IsDir, AllEmpty;
    var kept := LastLines(lines + [line], SMALL.maxEntries);
    assert kept == [line] && kept[..0] == [];
    assert Listed(kept[..0], files) == [];
    var listed := Listed(kept, files);
    if |listed| == 1 {
      assert listed[1..] == [];
      NoBytes(files, FilesBelow(files, SetDir(listed[0])));
      assert SetsBytes(files, listed) == 0;
    }
    assert listed[..0] == [];
  }

  lemma {:induction false} BothOnDisk(start: Files, first: Files, second: Files)
    requires OneMoreDir(start, first, "a", true) && OneMoreDir(first, second, "b", true)
    ensures OnDisk(second, ["a", "b"]) && !WithinBudget(second, ["a", "b"], SMALL)
  {
    hide IsDir, SetsBytes;
    assert "a"[0] != "b"[0];
  }
}
