/** The journal as an object, what every append keeps, and what its entries can be read back to. */
module RunJournals {
  import opened Wrappers
  import opened Text
  import opened Disks
  import opened JournalPaths
  import opened Journals
  import opened JournalImages

  // ----- one append -----

  datatype JournalState = JournalState(log: LogFile, files: Files)

  datatype JournalError = NotText

  /** The file after the line is written, the images the disk holds by then, and, if the file is text,
      what compaction and eviction leave of both. */
  ghost function Appended(setup: Setup, s: JournalState, id: string, record: RunRecord): JournalState
    requires Named(record.documents)
  {
    var fed := Feed(setup.codec, s.log, LineText(setup.codec, EntryOf(record, id, setup.limits)));
    var written := Written(setup, s.files, id, record);
    if Readable(setup.codec, fed) then
      var kept := LastLines(fed.lines, setup.limits.maxEntries);
      JournalState(LogFile(kept, fed.tail), Evicted(kept, written, setup.limits))
    else JournalState(fed, written)
  }

  /** The same, when only the first `n` bytes of the line get written and nothing happens after. */
  function Torn(setup: Setup, s: JournalState, id: string, record: RunRecord, n: nat): JournalState
    requires Named(record.documents)
    requires n <= |LineText(setup.codec, EntryOf(record, id, setup.limits))|
  {
    JournalState(Feed(setup.codec, s.log, LineText(setup.codec, EntryOf(record, id, setup.limits))[..n]),
                 Written(setup, s.files, id, record))
  }

  ghost predicate ValidSetup(setup: Setup) {
    Absolute(setup.dir) && LineCodec(setup.codec)
  }

  /** What a line that got through to byte `n` comes to, after the text `tail`. */
  function TailAfter(codec: Codec, tail: Bytes, entry: JournalEntry, n: nat): seq<Line>
    requires n <= |LineText(codec, entry)|
  {
    if n == 0 then TailLines(codec, tail)
    else if tail == [] && n >= |codec.render(entry)| then [Entry(entry)]
    else [Noise(tail + (if n > |codec.render(entry)| then codec.render(entry) else codec.render(entry)[..n]))]
  }

  lemma {:induction false} FeedPart(codec: Codec, log: LogFile, entry: JournalEntry, n: nat)
    requires LineCodec(codec) && Begun(log.tail) && n <= |LineText(codec, entry)|
    ensures var fed := Feed(codec, log, LineText(codec, entry)[..n]);
            && Begun(fed.tail)
            && AllLines(codec, fed) == log.lines + TailAfter(codec, log.tail, entry, n)
            && (fed.tail == [] <==> n == |LineText(codec, entry)| || (n == 0 && log.tail == []))
            && fed.lines == if n == |LineText(codec, entry)| then log.lines + TailAfter(codec, log.tail, entry, n)
                            else log.lines
  {
    hide AllLines, LineCodec, Feed, TailAfter;
    if n == |LineText(codec, entry)| {
      assert LineText(codec, entry)[..n] == LineText(codec, entry);
      FeedLine(codec, log, entry);
      WholeLine(codec, log.tail, entry);
      NoTail(codec, Feed(codec, log, LineText(codec, entry)));
    } else {
      assert LineText(codec, entry)[..n] == codec.render(entry)[..n];
      FeedWithin(codec, log, entry, n);
    }
  }

  /** Short of its newline, a line only lengthens the unfinished text. */
  lemma {:induction false} FeedWithin(codec: Codec, log: LogFile, entry: JournalEntry, n: nat)
    requires LineCodec(codec) && Begun(log.tail) && n <= |codec.render(entry)|
    ensures var fed := Feed(codec, log, codec.render(entry)[..n]);
            && Begun(fed.tail) && fed.lines == log.lines && (fed.tail == [] <==> n == 0 && log.tail == [])
            && AllLines(codec, fed) == log.lines + TailAfter(codec, log.tail, entry, n)
  {
    var text := codec.render(entry);
    assert Renders(codec, entry) && Glues(codec, log.tail, entry);
    FeedText(codec, log, text[..n]);
    assert [] + text[..n] == text[..n];
    if n == 0 {
      assert log.tail + [] == log.tail;
    } else if n == |text| {
      assert text[..n] == text;
    }
  }

  // ----- text that is no text -----

  lemma {:induction false} FedReadable(codec: Codec, log: LogFile, entry: JournalEntry, n: nat)
    requires LineCodec(codec) && Begun(log.tail) && n <= |LineText(codec, entry)|
    ensures var fed := Feed(codec, log, LineText(codec, entry)[..n]);
            && (!Readable(codec, log) ==> !Readable(codec, fed))
            && (n >= |codec.render(entry)| ==> (Readable(codec, fed) <==> Readable(codec, log)))
  {
    var fed := Feed(codec, log, LineText(codec, entry)[..n]);
    FeedPart(codec, log, entry, n);
    LastTexts(codec, log, TailAfter(codec, log.tail, entry, n), fed);
    TailReadable(codec, log.tail, entry, n);
  }

  lemma {:induction false} LastTexts(codec: Codec, log: LogFile, last: seq<Line>, fed: LogFile)
    requires AllLines(codec, fed) == log.lines + last
    ensures Readable(codec, fed) <==> Texts(codec, log.lines) && Texts(codec, last)
    ensures Readable(codec, log) <==> Texts(codec, log.lines) && Texts(codec, TailLines(codec, log.tail))
  {
    hide Texts;
    TextsAppend(codec, log.lines, last);
    TextsAppend(codec, log.lines, TailLines(codec, log.tail));
  }

  lemma {:induction false} TextsAppend(codec: Codec, a: seq<Line>, b: seq<Line>)
    ensures Texts(codec, a + b) <==> Texts(codec, a) && Texts(codec, b)
  {
    var all := a + b;
    assert forall i | 0 <= i < |a| :: all[i] == a[i];
    assert forall i | 0 <= i < |b| :: all[|a| + i] == b[i];
  }

  lemma {:induction false} TailReadable(codec: Codec, tail: Bytes, entry: JournalEntry, n: nat)
    requires LineCodec(codec) && n <= |LineText(codec, entry)|
    ensures var before, after := TailLines(codec, tail), TailAfter(codec, tail, entry, n);
            && (!Texts(codec, before) ==> !Texts(codec, after))
            && (n >= |codec.render(entry)| && Texts(codec, before) ==> Texts(codec, after))
  {
    var text := codec.render(entry);
    assert Renders(codec, entry) && Glues(codec, tail, entry);
    assert text[..|text|] == text;
    var before, after := TailLines(codec, tail), TailAfter(codec, tail, entry, n);
    if tail != [] {
      assert Texts(codec, before) <==> codec.utf8(tail) by {
        assert before[0] == LineOf(codec, tail);
        assert before[0].Noise? ==> before[0].text == tail;
        assert before[0].Entry? ==> codec.utf8(tail);
      }
    }
    if n > 0 && after[0].Noise? {
      assert Texts(codec, after) <==> codec.utf8(after[0].text);
    }
  }

  /** Once the file is no text it stays so: every later read and append fails. */
  lemma {:induction false} SpoiltForGood(setup: Setup, s: JournalState, id: string, record: RunRecord, n: nat)
    requires ValidSetup(setup) && Begun(s.log.tail) && Named(record.documents)
    requires n <= |LineText(setup.codec, EntryOf(record, id, setup.limits))|
    requires !Readable(setup.codec, s.log)
    ensures !Readable(setup.codec, Appended(setup, s, id, record).log)
    ensures !Readable(setup.codec, Torn(setup, s, id, record, n).log)
  {
    hide EntryOf, Written, Evicted, Readable, Feed, LineCodec, LineText;
    var entry := EntryOf(record, id, setup.limits);
    var line := LineText(setup.codec, entry);
    FedReadable(setup.codec, s.log, entry, n);
    FedReadable(setup.codec, s.log, entry, |line|);
    assert line[..|line|] == line;
  }

  // ----- what the images come to -----

  /** What the directory of `id` holds is what was written for it, and so is nothing, or all of it. */
  ghost predicate Intact(setup: Setup, files: Files, id: string, record: RunRecord) {
    FilesBelow(files, SetDir(id)) == {} ||
    (!TooLarge(record, setup.limits)
     && forall p | Within(SetDir(id), p) ::
          Same(files, WriteSet(map[], setup.dir, id, record.documents, |record.documents|), p))
  }

  /** Every image ever written landed in its own set. */
  ghost predicate Tame(records: map<string, RunRecord>) {
    forall id | id in records :: StaysInside(records[id].documents)
  }

  ghost predicate SetIntact(setup: Setup, files: Files, records: map<string, RunRecord>, id: string) {
    if id in records then Intact(setup, files, id, records[id]) else FilesBelow(files, SetDir(id)) == {}
  }

  ghost predicate Imaged(setup: Setup, files: Files, records: map<string, RunRecord>) {
    Tame(records) ==> forall id :: SetIntact(setup, files, records, id)
  }

  /** The new set is intact, and no other changes. */
  lemma {:induction false} WrittenIntact(
      setup: Setup, files: Files, records: map<string, RunRecord>, id: string, record: RunRecord, other: string)
    requires Absolute(setup.dir) && StaysInside(record.documents) && id !in records
    requires SetIntact(setup, files, records, id) && SetIntact(setup, files, records, other)
    ensures SetIntact(setup, Written(setup, files, id, record), records[id := record], other)
  {
    if !TooLarge(record, setup.limits) {
      var docs := record.documents;
      var alone := WriteSet(map[], setup.dir, id, docs, |docs|);
      var written := WriteSet(files, setup.dir, id, docs, |docs|);
      forall p | Within(SetDir(other), p)
        ensures Same(written, if other == id then alone else files, p)
      {
        WriteSetOver(files, setup.dir, id, docs, |docs|, p);
        if p in alone {
          WriteSetStaysInside(setup.dir, id, docs, |docs|, p);
          OneSetDir(id, other, p);
        } else if other == id {
          assert p !in FilesBelow(files, SetDir(id));
        }
      }
    }
  }

  lemma {:induction false} RemovedIntact(
      setup: Setup, files: Files, gone: seq<string>, records: map<string, RunRecord>, id: string)
    requires SetIntact(setup, files, records, id)
    ensures SetIntact(setup, RemoveSets(files, gone), records, id)
  {
    hide RemoveSets;
    SetAfterRemoval(files, gone, id);
    var left := RemoveSets(files, gone);
    assert id !in gone ==> forall p | Within(SetDir(id), p) :: Same(left, files, p);
  }

  lemma {:induction false} WrittenImaged(
      setup: Setup, files: Files, records: map<string, RunRecord>, id: string, record: RunRecord)
    requires Absolute(setup.dir) && Imaged(setup, files, records) && id !in records
    ensures Imaged(setup, Written(setup, files, id, record), records[id := record])
  {
    hide SetIntact, Written, StaysInside;
    var more := records[id := record];
    if Tame(more) {
      assert more[id] == record && StaysInside(record.documents);
      assert Tame(records) by {
        forall other | other in records
          ensures StaysInside(records[other].documents)
        {
          assert more[other] == records[other];
        }
      }
      forall other
        ensures SetIntact(setup, Written(setup, files, id, record), more, other)
      {
        WrittenIntact(setup, files, records, id, record, other);
      }
    }
  }

  lemma {:induction false} EvictedImaged(
      setup: Setup, files: Files, records: map<string, RunRecord>, lines: seq<Line>)
    requires Imaged(setup, files, records)
    ensures Imaged(setup, Evicted(lines, files, setup.limits), records)
  {
    hide SetIntact, RemoveSets;
    forall id | Tame(records)
      ensures SetIntact(setup, Evicted(lines, files, setup.limits), records, id)
    {
      var gone := Listed(lines, files)[..Surplus(files, Listed(lines, files), setup.limits)];
      RemovedIntact(setup, files, gone, records, id);
    }
  }

  // ----- what the lines come to -----

  ghost predicate Recorded(line: Line, records: map<string, RunRecord>, limits: JournalLimits) {
    line.Entry? ==>
      && line.entry.id in records
      && Named(records[line.entry.id].documents)
      && line.entry == EntryOf(records[line.entry.id], line.entry.id, limits)
  }

  /** No two entries share an id, and each is the one of the record reported under it. */
  ghost predicate SoundLines(lines: seq<Line>, records: map<string, RunRecord>, limits: JournalLimits) {
    DistinctIds(lines) && forall i | 0 <= i < |lines| :: Recorded(lines[i], records, limits)
  }

  /** `lines` ends `history`, and compacting either comes to the same. */
  ghost predicate IsTail(lines: seq<Line>, history: seq<Line>, max: nat) {
    && |lines| <= |history| && lines == history[|history| - |lines|..]
    && (|lines| == |history| || |lines| >= max)
  }

  /** `history` holds every line ever ended, and `records` every record reported, under its id. */
  ghost predicate SoundJournal(setup: Setup, s: JournalState, history: seq<Line>, records: map<string, RunRecord>) {
    && ValidSetup(setup)
    && Begun(s.log.tail)
    && IsTail(s.log.lines, history, setup.limits.maxEntries)
    && SoundLines(history + TailLines(setup.codec, s.log.tail), records, setup.limits)
    && Imaged(setup, s.files, records)
  }

  lemma {:induction false} TailOneMore(lines: seq<Line>, history: seq<Line>, more: seq<Line>, max: nat)
    requires IsTail(lines, history, max)
    ensures IsTail(lines + more, history + more, max)
    ensures IsTail(LastLines(lines + more, max), history + more, max)
    ensures LastLines(lines + more, max) == LastLines(history + more, max)
  {
    assert lines + more == (history + more)[|history| - |lines|..];
    var kept := LastLines(lines + more, max);
    assert kept == (history + more)[|history + more| - |kept|..];
  }

  lemma {:induction false} TailSound(
      lines: seq<Line>, history: seq<Line>, last: seq<Line>, records: map<string, RunRecord>, setup: Setup)
    requires IsTail(lines, history, setup.limits.maxEntries)
    requires SoundLines(history + last, records, setup.limits)
    ensures SoundLines(lines + last, records, setup.limits)
  {
    hide Recorded;
    var k := |history| - |lines|;
    assert forall i | 0 <= i < |lines + last| :: (lines + last)[i] == (history + last)[k + i];
  }

  lemma {:induction false} PrefixSound(
      lines: seq<Line>, last: seq<Line>, records: map<string, RunRecord>, limits: JournalLimits)
    requires SoundLines(lines + last, records, limits)
    ensures SoundLines(lines, records, limits)
  {
    hide Recorded;
    assert forall i | 0 <= i < |lines| :: (lines + last)[i] == lines[i];
  }

  lemma {:induction false} EntryId(record: RunRecord, id: string, limits: JournalLimits)
    requires Named(record.documents)
    ensures EntryOf(record, id, limits).id == id
  {
  }

  lemma {:induction false} StillRecorded(
      line: Line, records: map<string, RunRecord>, id: string, record: RunRecord, limits: JournalLimits)
    requires Recorded(line, records, limits) && id !in records
    ensures Recorded(line, records[id := record], limits) && (line.Entry? ==> line.entry.id != id)
  {
    hide EntryOf;
  }

  /** Noise or the new entry may follow sound lines. */
  lemma {:induction false} OneMoreSound(
      lines: seq<Line>, line: Line, records: map<string, RunRecord>,
      id: string, record: RunRecord, limits: JournalLimits)
    requires SoundLines(lines, records, limits) && id !in records && Named(record.documents)
    requires line.Noise? || line == Entry(EntryOf(record, id, limits))
    ensures SoundLines(lines + [line], records[id := record], limits)
  {
    hide EntryOf, Recorded;
    var more := lines + [line];
    EntryId(record, id, limits);
    NewRecorded(line, records, id, record, limits);
    forall i | 0 <= i < |lines|
      ensures Recorded(more[i], records[id := record], limits) && (more[i].Entry? ==> more[i].entry.id != id)
    {
      StillRecorded(lines[i], records, id, record, limits);
    }
  }

  lemma {:induction false} NewRecorded(
      line: Line, records: map<string, RunRecord>, id: string, record: RunRecord, limits: JournalLimits)
    requires Named(record.documents) && (line.Noise? || line == Entry(EntryOf(record, id, limits)))
    ensures Recorded(line, records[id := record], limits)
  {
    hide EntryOf;
    EntryId(record, id, limits);
  }

  lemma {:induction false} MoreRecords(
      lines: seq<Line>, records: map<string, RunRecord>, id: string, record: RunRecord, limits: JournalLimits)
    requires SoundLines(lines, records, limits) && id !in records
    ensures SoundLines(lines, records[id := record], limits)
  {
    hide Recorded;
    forall i | 0 <= i < |lines|
      ensures Recorded(lines[i], records[id := record], limits)
    {
      StillRecorded(lines[i], records, id, record, limits);
    }
  }

  /** However much of a line is written, the lines stay sound. */
  lemma {:induction false} FedSound(
      setup: Setup, s: JournalState, history: seq<Line>, records: map<string, RunRecord>,
      id: string, record: RunRecord, n: nat)
    requires SoundJournal(setup, s, history, records) && id !in records && Named(record.documents)
    requires n <= |LineText(setup.codec, EntryOf(record, id, setup.limits))|
    ensures var last := TailAfter(setup.codec, s.log.tail, EntryOf(record, id, setup.limits), n);
            SoundLines(history + last, records[id := record], setup.limits)
  {
    hide EntryOf, SoundLines, LineCodec, Imaged, IsTail;
    var last := TailAfter(setup.codec, s.log.tail, EntryOf(record, id, setup.limits), n);
    if n == 0 {
      MoreRecords(history + last, records, id, record, setup.limits);
    } else {
      PrefixSound(history, TailLines(setup.codec, s.log.tail), records, setup.limits);
      assert last == [last[0]];
      OneMoreSound(history, last[0], records, id, record, setup.limits);
    }
  }

  /** Wherever the write of a line stops, the journal stays sound. */
  lemma {:induction false} TornKeeps(
      setup: Setup, s: JournalState, history: seq<Line>, records: map<string, RunRecord>,
      id: string, record: RunRecord, n: nat)
    requires SoundJournal(setup, s, history, records) && id !in records && Named(record.documents)
    requires n <= |LineText(setup.codec, EntryOf(record, id, setup.limits))|
    ensures var entry := EntryOf(record, id, setup.limits);
            var whole := n == |LineText(setup.codec, entry)|;
            var ended := if whole then [Completed(setup.codec, s.log.tail, entry)] else [];
            SoundJournal(setup, Torn(setup, s, id, record, n), history + ended, records[id := record])
  {
    hide EntryOf, SoundLines, LineCodec, Imaged, IsTail, Feed, Written, LineText;
    var codec, entry := setup.codec, EntryOf(record, id, setup.limits);
    var fed := Feed(codec, s.log, LineText(codec, entry)[..n]);
    var last := TailAfter(codec, s.log.tail, entry, n);
    FeedPart(codec, s.log, entry, n);
    FedSound(setup, s, history, records, id, record, n);
    WrittenImaged(setup, s.files, records, id, record);
    WholeLine(codec, s.log.tail, entry);
    if n == |LineText(codec, entry)| {
      TailOneMore(s.log.lines, history, last, setup.limits.maxEntries);
      assert history + last + [] == history + last;
    } else {
      TailLinesOf(codec, fed, s.log.lines, last);
      assert history + [] == history;
    }
  }

  lemma {:induction false} WholeLine(codec: Codec, tail: Bytes, entry: JournalEntry)
    requires LineCodec(codec)
    ensures TailAfter(codec, tail, entry, |LineText(codec, entry)|) == [Completed(codec, tail, entry)]
  {
    assert Renders(codec, entry);
  }

  lemma {:induction false} TailLinesOf(codec: Codec, fed: LogFile, lines: seq<Line>, last: seq<Line>)
    requires fed.lines == lines && AllLines(codec, fed) == lines + last
    ensures TailLines(codec, fed.tail) == last
  {
    assert (lines + last)[|lines|..] == last && AllLines(codec, fed)[|lines|..] == TailLines(codec, fed.tail);
  }

  /** An append that returns keeps the journal sound, and if the file is text leaves the last lines of
      the history and, of the listed sets, the newest that fit both budgets. */
  lemma {:induction false} AppendKeeps(
      setup: Setup, s: JournalState, history: seq<Line>, records: map<string, RunRecord>, id: string, record: RunRecord)
    requires SoundJournal(setup, s, history, records) && id !in records && Named(record.documents)
    ensures var after, limits := Appended(setup, s, id, record), setup.limits;
            var line := Completed(setup.codec, s.log.tail, EntryOf(record, id, limits));
            var written := Written(setup, s.files, id, record);
            && SoundJournal(setup, after, history + [line], records[id := record])
            && after.log.tail == []
            && (Readable(setup.codec, after.log) <==> Readable(setup.codec, s.log))
            && (Readable(setup.codec, s.log) ==>
                  && after.log.lines == LastLines(s.log.lines + [line], limits.maxEntries)
                  && after.log.lines == LastLines(history + [line], limits.maxEntries)
                  && after.files == Evicted(after.log.lines, written, limits)
                  && NewestFit(after, written, limits))
            && (!Readable(setup.codec, s.log) ==> after == JournalState(LogFile(s.log.lines + [line], []), written))
  {
    hide *;
    var codec, entry, limits := setup.codec, EntryOf(record, id, setup.limits), setup.limits;
    var n := |LineText(codec, entry)|;
    var line := Completed(codec, s.log.tail, entry);
    SoundParts(setup, s, history, records);
    WholeText(codec, entry);
    TornKeeps(setup, s, history, records, id, record, n);
    TornIs(setup, s, id, record, n);
    FeedLine(codec, s.log, entry);
    FedReadable(codec, s.log, entry, n);
    var torn := Torn(setup, s, id, record, n);
    AppendedIs(setup, s, id, record, torn);
    SoundParts(setup, torn, history + [line], records[id := record]);
    if Readable(codec, s.log) {
      TailOneMore(s.log.lines, history, [line], limits.maxEntries);
      var kept := LastLines(torn.log.lines, limits.maxEntries);
      EvictedImaged(setup, torn.files, records[id := record], kept);
      KeptReadable(codec, torn.log.lines, limits.maxEntries);
      var after := Appended(setup, s, id, record);
      SoundFrom(setup, after, history + [line], records[id := record], torn);
      KeptDistinct(setup, after, history + [line], records[id := record]);
      EvictedLeaves(kept, torn.files, limits);
      NewestAre(after, torn.files, limits);
    }
  }

  /** The sets listed are the newest of those listed before, and fit both budgets. */
  ghost predicate NewestFit(after: JournalState, written: Files, limits: JournalLimits) {
    var lines := after.log.lines;
    && WithinBudget(after.files, Listed(lines, after.files), limits)
    && Listed(lines, after.files) == Listed(lines, written)[Surplus(written, Listed(lines, written), limits)..]
  }

  lemma {:induction false} NewestAre(after: JournalState, written: Files, limits: JournalLimits)
    ensures NewestFit(after, written, limits) <==>
            var lines := after.log.lines;
            && WithinBudget(after.files, Listed(lines, after.files), limits)
            && Listed(lines, after.files) == Listed(lines, written)[Surplus(written, Listed(lines, written), limits)..]
  {
  }

  lemma {:induction false} SoundParts(
      setup: Setup, s: JournalState, history: seq<Line>, records: map<string, RunRecord>)
    requires SoundJournal(setup, s, history, records)
    ensures LineCodec(setup.codec) && Absolute(setup.dir) && ValidSetup(setup) && Begun(s.log.tail)
    ensures IsTail(s.log.lines, history, setup.limits.maxEntries) && Imaged(setup, s.files, records)
    ensures SoundLines(history + TailLines(setup.codec, s.log.tail), records, setup.limits)
  {
  }

  lemma {:induction false} SoundFrom(
      setup: Setup, s: JournalState, history: seq<Line>, records: map<string, RunRecord>, torn: JournalState)
    requires SoundJournal(setup, torn, history, records)
    requires s.log.tail == torn.log.tail && Imaged(setup, s.files, records)
    requires IsTail(s.log.lines, history, setup.limits.maxEntries)
    ensures SoundJournal(setup, s, history, records)
  {
    hide Imaged, IsTail, SoundLines;
  }

  lemma {:induction false} WholeText(codec: Codec, entry: JournalEntry)
    ensures LineText(codec, entry)[..|LineText(codec, entry)|] == LineText(codec, entry)
    ensures |LineText(codec, entry)| == |codec.render(entry)| + 1
  {
  }

  lemma {:induction false} TornIs(setup: Setup, s: JournalState, id: string, record: RunRecord, n: nat)
    requires Named(record.documents) && n <= |LineText(setup.codec, EntryOf(record, id, setup.limits))|
    ensures Torn(setup, s, id, record, n) ==
            JournalState(Feed(setup.codec, s.log, LineText(setup.codec, EntryOf(record, id, setup.limits))[..n]),
                         Written(setup, s.files, id, record))
  {
  }

  lemma {:induction false} AppendedIs(setup: Setup, s: JournalState, id: string, record: RunRecord, torn: JournalState)
    requires Named(record.documents)
    requires torn == JournalState(Feed(setup.codec, s.log, LineText(setup.codec, EntryOf(record, id, setup.limits))),
                                  Written(setup, s.files, id, record))
    ensures var kept := LastLines(torn.log.lines, setup.limits.maxEntries);
            Appended(setup, s, id, record) ==
            if Readable(setup.codec, torn.log)
            then JournalState(LogFile(kept, torn.log.tail), Evicted(kept, torn.files, setup.limits))
            else torn
  {
  }

  lemma {:induction false} KeptReadable(codec: Codec, lines: seq<Line>, max: nat)
    requires Readable(codec, LogFile(lines, []))
    ensures Readable(codec, LogFile(LastLines(lines, max), []))
  {
    var kept := LastLines(lines, max);
    NoTail(codec, LogFile(kept, []));
    NoTail(codec, LogFile(lines, []));
    hide AllLines, Texts;
    var k := |lines| - |kept|;
    assert lines == lines[..k] + kept;
    TextsAppend(codec, lines[..k], kept);
  }

  lemma {:induction false} KeptDistinct(
      setup: Setup, s: JournalState, history: seq<Line>, records: map<string, RunRecord>)
    requires SoundJournal(setup, s, history, records)
    ensures SoundLines(AllLines(setup.codec, s.log), records, setup.limits)
    ensures DistinctIds(s.log.lines)
  {
    hide Imaged, IsTail, Recorded;
    TailSound(s.log.lines, history, TailLines(setup.codec, s.log.tail), records, setup);
    PrefixSound(s.log.lines, TailLines(setup.codec, s.log.tail), records, setup.limits);
  }

  class RunJournal {
    const setup: Setup
    var log: LogFile
    var files: Files
    /** Every line ever ended, and every record reported under its id. */
    ghost var history: seq<Line>
    ghost var records: map<string, RunRecord>

    ghost predicate Sound()
      reads this
    {
      SoundJournal(setup, State(), history, records)
    }

    ghost function State(): JournalState
      reads this
    {
      JournalState(log, files)
    }

    constructor (setup: Setup)
      requires ValidSetup(setup)
      ensures Sound() && this.setup == setup
      ensures State() == JournalState(LogFile([], []), map[]) && history == [] && records == map[]
    {
      this.setup := setup;
      log, files, history, records := LogFile([], []), map[], [], map[];
    }

    lemma {:induction false} SoundIs()
      ensures Sound() <==> SoundJournal(setup, JournalState(log, files), history, records)
      ensures State() == JournalState(log, files)
    {
    }

    /** Write the images the entry budget allows. */
    method WriteImages(docs: seq<RecordedDoc>, id: string, tails: seq<Path>) returns (wrotePre: bool, wrotePost: bool)
      requires |tails| == |docs| && forall i | 0 <= i < |docs| :: tails[i] == Tail(docs, i)
      modifies this`files
      ensures files == WriteSet(old(files), setup.dir, id, docs, |docs|)
      ensures wrotePre == HasSide(docs, Pre) && wrotePost == HasSide(docs, Post)
    {
      hide Tail, Landing, SideDir;
      wrotePre, wrotePost := false, false;
      for n := 0 to |docs|
        invariant files == WriteSet(old(files), setup.dir, id, docs, n)
        invariant wrotePre == exists i | 0 <= i < n :: docs[i].beforeBytes.Some?
        invariant wrotePost == exists i | 0 <= i < n :: docs[i].afterBytes.Some?
      {
        if docs[n].beforeBytes.Some? {
          files := files[Landing(setup.dir, SideDir(id, Pre), tails[n]) := docs[n].beforeBytes.value];
          wrotePre := true;
        }
        if docs[n].afterBytes.Some? {
          files := files[Landing(setup.dir, SideDir(id, Post), tails[n]) := docs[n].afterBytes.value];
          wrotePost := true;
        }
      }
      assert forall i | 0 <= i < |docs| ::
          SideOf(docs[i], Pre) == docs[i].beforeBytes && SideOf(docs[i], Post) == docs[i].afterBytes;
    }

    method MeasureEntry(docs: seq<RecordedDoc>) returns (total: nat)
      ensures total == EntryBytes(docs)
    {
      total := 0;
      for n := 0 to |docs|
        invariant total == EntryBytes(docs[..n])
      {
        assert docs[..n + 1][..n] == docs[..n];
        total := total + Bytes0(docs[n].beforeBytes) + Bytes0(docs[n].afterBytes);
      }
      assert docs[..|docs|] == docs;
    }

    /** Each document's line entry and its path below the root. */
    method Describe(docs: seq<RecordedDoc>, root: Option<Path>)
      returns (documents: seq<DocumentEntry>, tails: seq<Path>)
      requires root == CommonRoot(PathsOf(docs)) && Named(docs)
      ensures documents == DocumentEntries(docs)
      ensures |tails| == |docs| && forall i | 0 <= i < |docs| :: tails[i] == Tail(docs, i)
    {
      hide *;
      NamedPaths(docs);
      documents, tails := [], [];
      for i := 0 to |docs|
        invariant |documents| == |tails| == i && documents == DocumentEntries(docs)[..i]
        invariant forall j | 0 <= j < i :: tails[j] == Tail(docs, j)
      {
        TailDef(docs, i);
        TailNotEmpty(docs, i);
        var tail := Relativize(docs[i].path, root);
        documents := documents + [DocumentEntry(ToSlash(tail), docs[i].beforeRevision, docs[i].afterRevision)];
        tails := tails + [tail];
      }
      assert documents == DocumentEntries(docs);
    }

    /** The images and the entry of one record, the line not yet written. */
    method Prepare(record: RunRecord, id: string) returns (entry: JournalEntry)
      requires Named(record.documents)
      modifies this`files
      ensures entry == EntryOf(record, id, setup.limits)
      ensures files == Written(setup, old(files), id, record)
    {
      hide *;
      var docs := record.documents;
      var root := FindCommonRoot(PathsOf(docs));
      var total := MeasureEntry(docs);
      var documents, tails := Describe(docs, root);
      ghost var before := files;
      var large := total > setup.limits.maxEntryBytes;
      LargeAndRooted(record, setup.limits, root);
      var wrotePre, wrotePost := false, false;
      if !large {
        wrotePre, wrotePost := WriteImages(docs, id, tails);
      }
      WrittenIs(setup, before, id, record, files);
      entry := JournalEntry(
        id, record.outcome, documents,
        if root.Some? then Some(ToSlash(root.value)) else None,
        if wrotePre then Some(SidePath(id, Pre)) else None,
        if wrotePost then Some(SidePath(id, Post)) else None,
        large,
        if wrotePre then Some(id) else None);
      EntryIs(record, id, setup.limits, entry, wrotePre, wrotePost);
    }

    /** `id` has not been given out before.  The call fails exactly when the file is no text; the images
        and the line are written by then, and nothing is compacted or evicted. */
    method Append(record: RunRecord, id: string) returns (r: Result<string, JournalError>)
      requires Sound() && id !in records && Named(record.documents)
      modifies this
      ensures Sound() && records == old(records)[id := record]
      ensures history == old(history) + [Completed(setup.codec, old(log.tail), EntryOf(record, id, setup.limits))]
      ensures State() == Appended(setup, old(State()), id, record) && log.tail == []
      ensures r == if old(Readable(setup.codec, log)) then Success(id) else Failure(NotText)
      ensures r.Success? ==>
                && log.lines == LastLines(history, setup.limits.maxEntries)
                && IsNewest(log.lines, history, setup.limits.maxEntries)
                && NewestFit(State(), Written(setup, old(files), id, record), setup.limits)
    {
      hide *;
      SoundIs();
      SoundParts(setup, State(), history, records);
      AppendKeeps(setup, State(), history, records, id, record);
      ghost var before := State();
      var entry := Prepare(record, id);
      FedReadable(setup.codec, log, entry, |LineText(setup.codec, entry)|);
      WholeText(setup.codec, entry);
      log := Feed(setup.codec, log, LineText(setup.codec, entry));
      history := history + [Completed(setup.codec, before.log.tail, entry)];
      records := records[id := record];
      AppendedIs(setup, before, id, record, JournalState(log, files));
      var text := IsText(log);
      if !text {
        r := Failure(NotText);
      } else {
        log := LogFile(LastLines(log.lines, setup.limits.maxEntries), log.tail);
        files := EvictImages(log.lines, files, setup.limits);
        r := Success(id);
      }
      SoundIs();
      NewestKept(history, setup.limits.maxEntries);
    }

    /** An append that stops once the images and `n` bytes of the line are written. */
    method TearAppend(record: RunRecord, id: string, n: nat)
      requires Sound() && id !in records && Named(record.documents)
      requires n <= |LineText(setup.codec, EntryOf(record, id, setup.limits))|
      modifies this
      ensures Sound() && records == old(records)[id := record]
      ensures State() == Torn(setup, old(State()), id, record, n)
      ensures !old(Readable(setup.codec, log)) ==> !Readable(setup.codec, log)
    {
      hide *;
      SoundIs();
      SoundParts(setup, State(), history, records);
      TornKeeps(setup, State(), history, records, id, record, n);
      TornIs(setup, State(), id, record, n);
      ghost var tail := log.tail;
      var entry := Prepare(record, id);
      FedReadable(setup.codec, log, entry, n);
      var line := LineText(setup.codec, entry);
      log := Feed(setup.codec, log, line[..n]);
      history := history + if n == |line| then [Completed(setup.codec, tail, entry)] else [];
      records := records[id := record];
      SoundIs();
    }

    /** Whether the whole file is text. */
    method IsText(log: LogFile) returns (text: bool)
      ensures text <==> Readable(setup.codec, log)
    {
      hide AllLines;
      var lines := AllLines(setup.codec, log);
      text := true;
      for n := 0 to |lines|
        invariant text <==> Texts(setup.codec, lines[..n])
      {
        assert lines[..n + 1] == lines[..n] + [lines[n]];
        TextsAppend(setup.codec, lines[..n], [lines[n]]);
        assert Texts(setup.codec, [lines[n]]) <==> (lines[n].Noise? ==> setup.codec.utf8(lines[n].text));
        if lines[n].Noise? && !setup.codec.utf8(lines[n].text) {
          text := false;
        }
      }
      assert lines[..|lines|] == lines;
    }

    /** Every entry, oldest first, with its image fields cleared if its set is gone. */
    method ReadEntries() returns (r: Result<seq<JournalEntry>, JournalError>)
      ensures r == if Readable(setup.codec, log) then Success(Entries(AllLines(setup.codec, log), files))
                   else Failure(NotText)
    {
      hide AllLines, Readable;
      var text := IsText(log);
      if !text {
        return Failure(NotText);
      }
      var lines, out := AllLines(setup.codec, log), [];
      for n := 0 to |lines|
        invariant out == Entries(lines[..n], files)
      {
        assert lines[..n + 1][..n] == lines[..n];
        if lines[n].Entry? {
          out := out + [Forgotten(files, lines[n].entry)];
        }
      }
      assert lines[..|lines|] == lines;
      r := Success(out);
    }
  }

  /** The newest of the lines, as many as are allowed. */
  ghost predicate IsNewest(lines: seq<Line>, history: seq<Line>, max: nat) {
    |lines| == (if |history| < max then |history| else max) && lines == history[|history| - |lines|..]
  }

  lemma {:induction false} NewestKept(history: seq<Line>, max: nat)
    ensures IsNewest(LastLines(history, max), history, max)
  {
  }

  lemma {:induction false} NamedPaths(docs: seq<RecordedDoc>)
    requires Named(docs)
    ensures forall i | 0 <= i < |docs| :: docs[i].path != []
  {
  }

  lemma {:induction false} WrittenIs(setup: Setup, files: Files, id: string, record: RunRecord, written: Files)
    ensures Written(setup, files, id, record) ==
            if TooLarge(record, setup.limits) then files
            else WriteSet(files, setup.dir, id, record.documents, |record.documents|)
  {
  }

  lemma {:induction false} LargeAndRooted(record: RunRecord, limits: JournalLimits, root: Option<Path>)
    requires root == CommonRoot(PathsOf(record.documents))
    ensures TooLarge(record, limits) <==> EntryBytes(record.documents) > limits.maxEntryBytes
    ensures root.Some? ==> root.value != []
  {
  }

  lemma {:induction false} TailDef(docs: seq<RecordedDoc>, i: nat)
    requires i < |docs|
    ensures Tail(docs, i) == Relativize(docs[i].path, CommonRoot(PathsOf(docs)))
  {
  }

  lemma {:induction false} EntryIs(
      record: RunRecord, id: string, limits: JournalLimits, entry: JournalEntry, wrotePre: bool, wrotePost: bool)
    requires Named(record.documents)
    requires var docs := record.documents;
             var root := CommonRoot(PathsOf(docs));
             var large := TooLarge(record, limits);
             && wrotePre == (!large && HasSide(docs, Pre)) && wrotePost == (!large && HasSide(docs, Post))
             && (root.Some? ==> root.value != [])
             && entry == JournalEntry(id, record.outcome, DocumentEntries(docs),
                                      if root.Some? then Some(ToSlash(root.value)) else None,
                                      if wrotePre then Some(SidePath(id, Pre)) else None,
                                      if wrotePost then Some(SidePath(id, Post)) else None,
                                      large, if wrotePre then Some(id) else None)
    ensures entry == EntryOf(record, id, limits)
  {
  }

  // ----- the promises -----

  /** After a complete append its entry can be read exactly when the file was text that was empty or
      ended in a newline, and a line may be kept at all. */
  lemma {:induction false} AppendedReadsExactly(
      setup: Setup, s: JournalState, history: seq<Line>, records: map<string, RunRecord>, id: string, record: RunRecord)
    requires SoundJournal(setup, s, history, records) && id !in records && Named(record.documents)
    ensures var after := Appended(setup, s, id, record).log;
            && (Readable(setup.codec, after) && HasLine(AllLines(setup.codec, after), id) <==>
                Readable(setup.codec, s.log) && s.log.tail == [] && setup.limits.maxEntries >= 1)
            && (Readable(setup.codec, s.log) && s.log.tail != [] ==>
                forall other :: HasLine(AllLines(setup.codec, after), other) ==> HasLine(s.log.lines, other))
  {
    hide *;
    var codec, entry, limits := setup.codec, EntryOf(record, id, setup.limits), setup.limits;
    AppendKeeps(setup, s, history, records, id, record);
    SoundParts(setup, s, history, records);
    KeptDistinct(setup, s, history, records);
    if Readable(codec, s.log) {
      var line := Completed(codec, s.log.tail, entry);
      var after := Appended(setup, s, id, record).log;
      NoTail(codec, after);
      EntryId(record, id, limits);
      FreshLine(codec, s.log, records, id, limits);
      CompletedIs(codec, s.log.tail, entry);
      KeptHasLine(s.log.lines, line, limits.maxEntries, id);
      forall other
        ensures s.log.tail != [] && HasLine(after.lines, other) ==> HasLine(s.log.lines, other)
      {
        KeptHasLine(s.log.lines, line, limits.maxEntries, other);
      }
    }
  }

  lemma {:induction false} NoTail(codec: Codec, log: LogFile)
    requires log.tail == []
    ensures AllLines(codec, log) == log.lines
  {
    assert log.lines + [] == log.lines;
  }

  lemma {:induction false} CompletedIs(codec: Codec, tail: Bytes, entry: JournalEntry)
    ensures tail == [] ==> Completed(codec, tail, entry) == Entry(entry)
    ensures tail != [] ==> Completed(codec, tail, entry).Noise?
  {
  }

  lemma {:induction false} FreshLine(
      codec: Codec, log: LogFile, records: map<string, RunRecord>, id: string, limits: JournalLimits)
    requires SoundLines(AllLines(codec, log), records, limits) && id !in records
    ensures !HasLine(AllLines(codec, log), id) && !HasLine(log.lines, id)
  {
    hide EntryOf;
    var all := AllLines(codec, log);
    forall i | 0 <= i < |all|
      ensures all[i].Entry? ==> all[i].entry.id != id
    {
      assert Recorded(all[i], records, limits);
    }
    assert forall i | 0 <= i < |log.lines| :: all[i] == log.lines[i];
  }

  lemma {:induction false} HasLineShifted(lines: seq<Line>, part: seq<Line>, k: nat, id: string)
    requires k + |part| <= |lines| && part == lines[k..k + |part|] && HasLine(part, id)
    ensures HasLine(lines, id)
  {
    var i :| 0 <= i < |part| && part[i].Entry? && part[i].entry.id == id;
    assert lines[k + i] == part[i];
  }

  lemma {:induction false} HasLineLast(lines: seq<Line>, line: Line, id: string)
    ensures HasLine(lines + [line], id) <==> HasLine(lines, id) || (line.Entry? && line.entry.id == id)
  {
    var all := lines + [line];
    assert all[|lines|] == line && forall i | 0 <= i < |lines| :: all[i] == lines[i];
  }

  /** What is found among the kept lines. */
  lemma {:induction false} KeptHasLine(lines: seq<Line>, line: Line, max: nat, id: string)
    ensures var kept := LastLines(lines + [line], max);
            && (HasLine(kept, id) ==> HasLine(lines, id) || (max >= 1 && line.Entry? && line.entry.id == id))
            && (max >= 1 && line.Entry? && line.entry.id == id ==> HasLine(kept, id))
  {
    hide HasLine;
    var all := lines + [line];
    var kept := LastLines(all, max);
    HasLineLast(lines, line, id);
    if HasLine(kept, id) {
      HasLineShifted(all, kept, |all| - |kept|, id);
    }
    if max >= 1 {
      assert kept == kept[..|kept| - 1] + [line];
      HasLineLast(kept[..|kept| - 1], line, id);
    } else {
      NoLines(id);
    }
  }

  lemma {:induction false} NoLines(id: string)
    ensures !HasLine([], id)
  {
  }

  lemma {:induction false} EntriesAre(lines: seq<Line>, files: Files, e: JournalEntry)
    requires e in Entries(lines, files)
    ensures exists i | 0 <= i < |lines| :: lines[i].Entry? && e == Forgotten(files, lines[i].entry)
  {
    var init, last := lines[..|lines| - 1], lines[|lines| - 1];
    if e in Entries(init, files) {
      EntriesAre(init, files, e);
      var i :| 0 <= i < |init| && init[i].Entry? && e == Forgotten(files, init[i].entry);
      assert lines[i] == init[i];
    }
  }

  /** An entry whose set is on disk reads back exactly what was recorded for each document. */
  lemma {:induction false} ReadsBack(
      setup: Setup, files: Files, id: string, record: RunRecord, i: nat, side: ImageSide)
    requires Absolute(setup.dir) && Separable(record.documents) && Plain(id) && i < |record.documents|
    requires Intact(setup, files, id, record) && IsDir(files, SetDir(id))
    ensures Named(record.documents)
    ensures Image(files, setup.dir, EntryOf(record, id, setup.limits), i, side) == SideOf(record.documents[i], side)
  {
    hide Separable, ImageAt, OwnPlaces, WriteSet, Tail, Landing;
    var docs := record.documents;
    SeparableParts(docs);
    SeparableExactly(setup.dir, id, docs);
    TailsOfDocuments(docs);
    OwnPlacesRead(setup.dir, id, docs, docs);
    TailReads(setup.dir, id, docs, i, side);
    ImageAtIs(setup.dir, id, docs, i, side);
    SidePathReads(id, side);
    var q :| q in files && Within(SetDir(id), q);
    assert q in FilesBelow(files, SetDir(id));
    assert Same(files, WriteSet(map[], setup.dir, id, docs, |docs|), ImageAt(setup.dir, id, docs, i, side));
    assert SideOf(docs[i], side).Some? ==> HasSide(docs, side);
    ImageRead(setup, files, id, record, i, side);
  }

  lemma {:induction false} SeparableParts(docs: seq<RecordedDoc>)
    requires Separable(docs)
    ensures StaysInside(docs) && forall i | 0 <= i < |docs| :: DocumentPath(docs[i].path) && Stays(Tail(docs, i))
  {
  }

  lemma {:induction false} ImageRead(
      setup: Setup, files: Files, id: string, record: RunRecord, i: nat, side: ImageSide)
    requires Named(record.documents) && i < |record.documents| && Tail(record.documents, i) != []
    requires FromSlash(SidePath(id, side)) == SideDir(id, side)
    ensures var docs := record.documents;
            Image(files, setup.dir, EntryOf(record, id, setup.limits), i, side) ==
            if !TooLarge(record, setup.limits) && HasSide(docs, side)
            then Lookup(files, ReadAt(setup.dir, id, docs, i, side)) else None
  {
    hide Landing;
  }

  /** Any entry returned with a rollback token yields, document by document, exactly the bytes recorded,
      as long as every image ever written landed in its own set. */
  lemma {:induction false} TokensReadBack(
      setup: Setup, s: JournalState, history: seq<Line>, records: map<string, RunRecord>, e: JournalEntry, i: nat)
    requires SoundJournal(setup, s, history, records)
    requires e in Entries(AllLines(setup.codec, s.log), s.files) && e.rollbackToken.Some?
    ensures e.id in records
    ensures Tame(records) && Plain(e.id) && Separable(records[e.id].documents) && i < |records[e.id].documents| ==>
              && Image(s.files, setup.dir, e, i, Pre) == records[e.id].documents[i].beforeBytes
              && Image(s.files, setup.dir, e, i, Post) == records[e.id].documents[i].afterBytes
  {
    hide Intact, Tame, Separable, IsDir, Plain, EntryOf, Image, IsTail, LineCodec;
    KeptDistinct(setup, s, history, records);
    var lines := AllLines(setup.codec, s.log);
    EntriesAre(lines, s.files, e);
    var k :| 0 <= k < |lines| && lines[k].Entry? && e == Forgotten(s.files, lines[k].entry);
    assert Recorded(lines[k], records, setup.limits);
    if Tame(records) && Plain(e.id) && Separable(records[e.id].documents) && i < |records[e.id].documents| {
      assert SetIntact(setup, s.files, records, e.id);
      ReadsBack(setup, s.files, e.id, records[e.id], i, Pre);
      ReadsBack(setup, s.files, e.id, records[e.id], i, Post);
    }
  }
}
