/** Which bytes a call's graph is of: one reading per document asked for, each of what the file held. */
module GraphReadings {
  import opened Wrappers
  import opened Text
  import Graphs
  import opened GraphStores
  import opened Sorting

  /** The file held these bytes at some moment since step `from`. */
  ghost predicate HeldSince<G>(w: World<G>, s: State<G>, steps: seq<Step>, from: nat, r: Reading) {
    exists k: nat :: from <= k <= |steps| && HeldAt(w, s, steps, k, r)
  }

  ghost predicate HeldAt<G>(w: World<G>, s: State<G>, steps: seq<Step>, k: nat, r: Reading)
    requires k <= |steps|
  {
    var files := Run(w, s, steps[..k]).files;
    r.path in files && files[r.path] == r.bytes
  }

  function PathsOf(readings: seq<Reading>): (paths: seq<Path>)
    ensures |paths| == |readings| && forall i | 0 <= i < |paths| :: paths[i] == readings[i].path
  {
    seq(|readings|, i requires 0 <= i < |readings| => readings[i].path)
  }

  /** Readings made since step `from`, of the documents in the order asked. */
  ghost predicate Gathered<G>(
      w: World<G>, s: State<G>, steps: seq<Step>, from: nat, documents: seq<Path>, readings: seq<Reading>)
  {
    PathsOf(readings) == documents && forall i | 0 <= i < |readings| :: HeldSince(w, s, steps, from, readings[i])
  }

  /** By path, component by component. */
  ghost predicate InPathOrder(readings: seq<Reading>) {
    forall i, j | 0 <= i < j < |readings| ::
      var a, b := Split(readings[i].path, '/'), Split(readings[j].path, '/');
      PathLess(a, b) || a == b
  }

  /** The gathered readings, put in path order. */
  ghost predicate Arranged<G>(
      w: World<G>, s: State<G>, steps: seq<Step>, from: nat, documents: seq<Path>, readings: seq<Reading>)
  {
    InPathOrder(readings) && exists gathered ::
      Gathered(w, s, steps, from, documents, gathered) && multiset(gathered) == multiset(readings)
  }

  /** The step that began the call. */
  ghost predicate BeganAt(steps: seq<Step>, id: nat, n: nat, dir: Path, documents: seq<Path>) {
    n < |steps| && steps[n] == Begin(id, dir, documents)
  }

  ghost predicate CallIsTrue<G>(
      w: World<G>, s: State<G>, steps: seq<Step>, c: Call<G>, from: nat, dir: Path, documents: seq<Path>)
  {
    match c
    case Gathering(d, todo, readings) =>
      && d == dir && |todo| <= |documents| && todo == documents[|documents| - |todo|..]
      && Gathered(w, s, steps, from, documents[..|documents| - |todo|], readings)
    case Failed => true
    case Consulting(d, readings) => d == dir && Arranged(w, s, steps, from, documents, readings)
    case Extracting(d, readings, _, _) => d == dir && Arranged(w, s, steps, from, documents, readings)
    case Storing(d, readings, _, _) => d == dir && Arranged(w, s, steps, from, documents, readings)
    case Returned(d, readings, _) => d == dir && Arranged(w, s, steps, from, documents, readings)
  }

  ghost predicate Begun<G>(w: World<G>, s: State<G>, steps: seq<Step>, id: nat, c: Call<G>) {
    exists n: nat, dir, documents ::
      BeganAt(steps, id, n, dir, documents) && CallIsTrue(w, s, steps, c, n + 1, dir, documents)
  }

  // ----- what one more step changes -----

  lemma {:induction false} RunOneMore<G>(w: World<G>, s: State<G>, steps: seq<Step>, step: Step)
    ensures Run(w, s, steps + [step]) == Next(w, Run(w, s, steps), step)
  {
    assert (steps + [step])[..|steps|] == steps;
  }

  lemma {:induction false} HeldStill<G>(
      w: World<G>, s: State<G>, steps: seq<Step>, step: Step, from: nat, r: Reading)
    requires HeldSince(w, s, steps, from, r)
    ensures HeldSince(w, s, steps + [step], from, r)
  {
    var k: nat :| from <= k <= |steps| && HeldAt(w, s, steps, k, r);
    assert (steps + [step])[..k] == steps[..k];
    assert HeldAt(w, s, steps + [step], k, r);
  }

  lemma {:induction false} GatheredStill<G>(w: World<G>, s: State<G>, steps: seq<Step>, step: Step, from: nat,
                                            documents: seq<Path>, readings: seq<Reading>)
    requires Gathered(w, s, steps, from, documents, readings)
    ensures Gathered(w, s, steps + [step], from, documents, readings)
  {
    forall i | 0 <= i < |readings| ensures HeldSince(w, s, steps + [step], from, readings[i]) {
      HeldStill(w, s, steps, step, from, readings[i]);
    }
  }

  lemma {:induction false} ArrangedStill<G>(w: World<G>, s: State<G>, steps: seq<Step>, step: Step, from: nat,
                                            documents: seq<Path>, readings: seq<Reading>)
    requires Arranged(w, s, steps, from, documents, readings)
    ensures Arranged(w, s, steps + [step], from, documents, readings)
  {
    var gathered :| Gathered(w, s, steps, from, documents, gathered) && multiset(gathered) == multiset(readings);
    GatheredStill(w, s, steps, step, from, documents, gathered);
  }

  lemma {:induction false} CallStill<G>(w: World<G>, s: State<G>, steps: seq<Step>, step: Step, c: Call<G>, from: nat,
                                        dir: Path, documents: seq<Path>)
    requires CallIsTrue(w, s, steps, c, from, dir, documents)
    ensures CallIsTrue(w, s, steps + [step], c, from, dir, documents)
  {
    match c
    case Gathering(_, todo, readings) =>
      GatheredStill(w, s, steps, step, from, documents[..|documents| - |todo|], readings);
    case Failed =>
    case Consulting(_, readings) => ArrangedStill(w, s, steps, step, from, documents, readings);
    case Extracting(_, readings, _, _) => ArrangedStill(w, s, steps, step, from, documents, readings);
    case Storing(_, readings, _, _) => ArrangedStill(w, s, steps, step, from, documents, readings);
    case Returned(_, readings, _) => ArrangedStill(w, s, steps, step, from, documents, readings);
  }

  lemma {:induction false} ReadingOrder()
    ensures StrictOrder((a: Reading, b: Reading) => ReadingLess(a, b))
  {
    forall a: Reading, b: Reading
      ensures ReadingLess(a, b) ==> !ReadingLess(b, a)
    {
      PathTotal(Split(a.path, '/'), Split(b.path, '/'));
    }
    forall a: Reading, b: Reading, c: Reading | !ReadingLess(b, a) && !ReadingLess(c, b)
      ensures !ReadingLess(c, a)
    {
      var p, q, r := Split(a.path, '/'), Split(b.path, '/'), Split(c.path, '/');
      PathTotal(p, q);
      PathTotal(q, r);
      PathTotal(p, r);
      if p != q && q != r {
        PathTransitive(p, q, r);
      }
    }
  }

  lemma {:induction false} SortedArranged<G>(
      w: World<G>, s: State<G>, steps: seq<Step>, from: nat, documents: seq<Path>, readings: seq<Reading>)
    requires Gathered(w, s, steps, from, documents, readings)
    ensures Arranged(w, s, steps, from, documents, SortReadings(readings))
  {
    var less := (a: Reading, b: Reading) => ReadingLess(a, b);
    ReadingOrder();
    SortSorts(readings, less);
    SortKeeps(readings, less);
    var out := SortReadings(readings);
    forall i, j | 0 <= i < j < |out|
      ensures var a, b := Split(out[i].path, '/'), Split(out[j].path, '/'); PathLess(a, b) || a == b
    {
      assert !less(out[j], out[i]);
      PathTotal(Split(out[i].path, '/'), Split(out[j].path, '/'));
    }
  }

  /** One reading more, of what the file holds now; or the readings put in order; or a file that cannot
      be read. */
  lemma {:induction false} ReadingIsTrue<G>(w: World<G>, s: State<G>, steps: seq<Step>, c: Call<G>, from: nat,
                                            dir: Path, documents: seq<Path>)
    requires c.Gathering? && from <= |steps| && CallIsTrue(w, s, steps, c, from, dir, documents)
    ensures CallIsTrue(w, s, steps, AfterReading(Run(w, s, steps).files, c), from, dir, documents)
  {
    var files := Run(w, s, steps).files;
    var n := |documents| - |c.todo|;
    if c.todo == [] {
      assert documents[..n] == documents;
      SortedArranged(w, s, steps, from, documents, c.readings);
    } else if c.todo[0] in files {
      var r := Reading(c.todo[0], files[c.todo[0]]);
      assert steps[..|steps|] == steps;
      assert HeldAt(w, s, steps, |steps|, r);
      assert c.todo[1..] == documents[n + 1..];
      assert documents[..n + 1] == documents[..n] + [documents[n]];
      assert PathsOf(c.readings + [r]) == PathsOf(c.readings) + [r.path];
    }
  }

  /** After any step a call is new, has read on, or holds the readings it held. */
  lemma {:induction false} NextCall<G>(w: World<G>, s: State<G>, step: Step, id: nat)
    requires id in Next(w, s, step).calls
    ensures var next := Next(w, s, step).calls[id];
            || (id !in s.calls && step.Begin? && step.id == id &&
                next == Gathering(step.dir, step.documents, []))
            || (id in s.calls && next == s.calls[id])
            || (id in s.calls && s.calls[id].Gathering? && next == AfterReading(s.files, s.calls[id]))
            || (id in s.calls && Carries(s.calls[id], next))
  {
  }

  /** The same project and readings, one stage further. */
  ghost predicate Carries<G>(c: Call<G>, d: Call<G>) {
    && !c.Gathering? && !c.Failed? && !d.Gathering? && !d.Failed?
    && c.dir == d.dir && c.readings == d.readings
  }

  lemma {:induction false} BegunOn<G>(w: World<G>, s: State<G>, steps: seq<Step>, step: Step, id: nat)
    requires var now := Run(w, s, steps); id in now.calls ==> Begun(w, s, steps, id, now.calls[id])
    requires id in Next(w, Run(w, s, steps), step).calls
    ensures Begun(w, s, steps + [step], id, Next(w, Run(w, s, steps), step).calls[id])
  {
    hide Next, AfterReading, CallIsTrue, Run;
    var now, all := Run(w, s, steps), steps + [step];
    var next := Next(w, now, step).calls[id];
    NextCall(w, now, step, id);
    if id !in now.calls {
      assert BeganAt(all, id, |steps|, step.dir, step.documents);
      NothingRead(w, s, all, |steps| + 1, step.dir, step.documents);
    } else {
      var n: nat, dir, documents :|
        BeganAt(steps, id, n, dir, documents) && CallIsTrue(w, s, steps, now.calls[id], n + 1, dir, documents);
      assert BeganAt(all, id, n, dir, documents);
      if next == now.calls[id] {
      } else if Carries(now.calls[id], next) {
        CarriedIsTrue(w, s, steps, now.calls[id], next, n + 1, dir, documents);
      } else {
        ReadingIsTrue(w, s, steps, now.calls[id], n + 1, dir, documents);
      }
      CallStill(w, s, steps, step, next, n + 1, dir, documents);
    }
  }

  lemma {:induction false} NothingRead<G>(
      w: World<G>, s: State<G>, steps: seq<Step>, from: nat, dir: Path, documents: seq<Path>)
    ensures CallIsTrue(w, s, steps, Gathering(dir, documents, []), from, dir, documents)
  {
    assert documents[..0] == [] && documents[0..] == documents && PathsOf([]) == [];
  }

  lemma {:induction false} CarriedIsTrue<G>(w: World<G>, s: State<G>, steps: seq<Step>, c: Call<G>, d: Call<G>,
                                            from: nat, dir: Path, documents: seq<Path>)
    requires Carries(c, d) && CallIsTrue(w, s, steps, c, from, dir, documents)
    ensures CallIsTrue(w, s, steps, d, from, dir, documents)
  {
  }

  /** Over every history of edits and interleaved calls, a call works on one reading of each document
      it was asked about, in path order once all are read, each of bytes the file held at some
      moment since the call began. */
  lemma {:induction false} EveryReadingIsTrue<G>(w: World<G>, s: State<G>, steps: seq<Step>, id: nat)
    requires s.calls == map[] && id in Run(w, s, steps).calls
    ensures Begun(w, s, steps, id, Run(w, s, steps).calls[id])
  {
    if steps != [] {
      var init, step := steps[..|steps| - 1], steps[|steps| - 1];
      assert steps == init + [step];
      RunOneMore(w, s, init, step);
      if id in Run(w, s, init).calls {
        EveryReadingIsTrue(w, s, init, id);
      }
      BegunOn(w, s, init, step, id);
    }
  }

  // ----- what a graph is built from -----

  /** `name` is what follows the last slash of `path`. */
  ghost predicate FileName(path: Path, name: string) {
    '/' !in name && (path == name || exists dir :: path == dir + "/" + name)
  }

  lemma {:induction false} NameExactly(path: Path, name: string)
    requires FileName(path, name)
    ensures DocumentName(path) == name
  {
    if dir :| path == dir + "/" + name {
      SplitLast(dir, name, '/');
    } else {
      SplitPrepend(name, "", '/');
      assert name + "" == name;
    }
  }

  /** A graph built with no cache is built from one document per file of a kind that parses, named after
      the file, in the order of the readings. */
  lemma {:induction false} BuiltFromFiles<G>(w: World<G>, readings: seq<Reading>, r: Reading, name: string)
    requires FileName(r.path, name)
    ensures FromScratch(w, readings) == w.build(Documents(w, readings))
    ensures Documents(w, []) == []
    ensures Documents(w, readings + [r]) ==
            match w.kindOf(r.path)
            case None => Documents(w, readings)
            case Some(kind) =>
              match w.extract(kind, r.bytes)
              case None => Documents(w, readings)
              case Some(items) => Documents(w, readings) + [Graphs.Document(name, items)]
  {
    NameExactly(r.path, name);
    assert (readings + [r])[..|readings|] == readings;
  }
}
