/** A compiled program's run: a state machine the host asks for steps and reports outcomes to. */
module Execute {
  import opened Wrappers
  import opened Json
  import opened Refs
  import opened Plans
  import opened Programs

  datatype ResolvedStep = ResolvedStep(index: nat, id: string, op: string, tool: string, args: Json)

  datatype StepResult = StepResult(index: nat, id: string, op: string, tool: string,
                                   ok: bool, unresolved: bool, output: Json)

  /** What the host should do next. */
  datatype Next = Call(step: ResolvedStep) | Unresolved(result: StepResult) | Done

  datatype Report = Report(planId: string, steps: nat, ran: nat, ok: nat, failedAt: Option<nat>, notRun: nat,
                           rollback: bool, policy: RollbackPolicy, results: seq<StepResult>)

  // ----- the run as a value: one event at a time -----

  datatype Run = Run(program: Program, outputs: Outputs, results: seq<StepResult>, cursor: nat,
                     pending: Option<ResolvedStep>, halted: bool)

  function Start(program: Program): Run {
    Run(program, map[], [], 0, None, false)
  }

  function ErrorOutput(error: RefError): Json {
    Obj(Insert(Insert([], "error_kind", Str(Code(error))), "error", Str(Describe(error))))
  }

  function Answer(run: Run): Next {
    if run.pending.Some? then Call(run.pending.value)
    else if run.halted || run.cursor >= |run.program.steps| then Done
    else
      var step := run.program.steps[run.cursor];
      match Resolve(step.args, run.outputs)
      case Success(args) => Call(ResolvedStep(run.cursor, step.id, step.op, step.tool, args))
      case Failure(error) =>
        Unresolved(StepResult(run.cursor, step.id, step.op, step.tool, false, true, ErrorOutput(error)))
  }

  function AfterAsk(run: Run): Run {
    match Answer(run)
    case Call(step) => run.(pending := Some(step))
    case Unresolved(result) =>
      run.(results := run.results + [result], cursor := run.cursor + 1,
           halted := run.halted || run.program.policy.Halts())
    case Done => run
  }

  /** Where an output is bound: under the step's id, then under its operation's. */
  function Bind(outputs: Outputs, step: Step, output: Json): Outputs {
    outputs[step.id := output][step.opId := output]
  }

  function AfterRecord(run: Run, ok: bool, output: Json): Run {
    if run.pending.None? || run.pending.value.index >= |run.program.steps| then run
    else
      var step := run.pending.value;
      run.(pending := None,
           outputs := run.outputs[step.id := output][run.program.steps[step.index].opId := output],
           results := run.results + [StepResult(step.index, step.id, step.op, step.tool, ok, false, output)],
           cursor := run.cursor + 1,
           halted := run.halted || (!ok && run.program.policy.Halts()))
  }

  function CountOk(results: seq<StepResult>): nat {
    if results == [] then 0 else (if results[0].ok then 1 else 0) + CountOk(results[1..])
  }

  function FirstFailure(results: seq<StepResult>): Option<nat> {
    if results == [] then None
    else if !results[0].ok then Some(results[0].index)
    else FirstFailure(results[1..])
  }

  function ReportOf(run: Run): Report {
    var failedAt := FirstFailure(run.results);
    Report(run.program.planId, |run.program.steps|, |run.results|, CountOk(run.results), failedAt,
           if |run.program.steps| >= |run.results| then |run.program.steps| - |run.results| else 0,
           failedAt.Some? && run.program.policy.RollsBack(), run.program.policy, run.results)
  }

  predicate Finished(run: Run) {
    run.pending.None? && (run.halted || run.cursor >= |run.program.steps|)
  }

  // ----- what every event keeps -----

  /** The step a pending call came from, resolved against the outputs of the moment. */
  ghost predicate PendingMatches(run: Run) {
    run.pending.Some? ==>
      && run.cursor < |run.program.steps| && !run.halted
      && var step := run.program.steps[run.cursor];
      && run.pending.value.index == run.cursor
      && run.pending.value.id == step.id && run.pending.value.op == step.op && run.pending.value.tool == step.tool
      && Resolve(step.args, run.outputs) == Success(run.pending.value.args)
  }

  /** Results are exactly steps 0 up to the cursor, in program order. */
  ghost predicate ResultsInOrder(run: Run) {
    && run.cursor == |run.results| <= |run.program.steps|
    && forall i | 0 <= i < |run.results| ::
         var step, result := run.program.steps[i], run.results[i];
         && result.index == i && result.id == step.id && result.op == step.op && result.tool == step.tool
         && (result.unresolved ==> !result.ok)
  }

  /** The outputs a history of results leaves bound: what was recorded, never what was unresolved. */
  function Bindings(program: Program, results: seq<StepResult>): Outputs {
    if results == [] then map[]
    else
      var earlier := Bindings(program, results[..|results| - 1]);
      var last := results[|results| - 1];
      if last.unresolved || last.index >= |program.steps| then earlier
      else Bind(earlier, program.steps[last.index], last.output)
  }

  /** Under a halting policy the run is halted exactly when some result failed, and then the
      failure is the last one. */
  ghost predicate HaltsOnFailure(run: Run) {
    && (run.halted <==> run.program.policy.Halts() && exists i | 0 <= i < |run.results| :: !run.results[i].ok)
    && (run.program.policy.Halts() ==> forall i | 0 <= i < |run.results| - 1 :: run.results[i].ok)
  }

  /** Every unresolved result carries the error its step's references met at that moment. */
  ghost predicate Explained(run: Run) {
    && |run.results| <= |run.program.steps|
    && forall i | 0 <= i < |run.results| && run.results[i].unresolved ::
         var r := Resolve(run.program.steps[i].args, Bindings(run.program, run.results[..i]));
         r.Failure? && run.results[i].output == ErrorOutput(r.error)
  }

  ghost predicate ValidRun(run: Run) {
    && PendingMatches(run)
    && Explained(run)
    && ResultsInOrder(run)
    && run.outputs == Bindings(run.program, run.results)
    && HaltsOnFailure(run)
  }

  lemma {:induction false} StartValid(program: Program)
    ensures ValidRun(Start(program))
  {
  }

  lemma {:induction false} Appended(run: Run, next: Run, result: StepResult)
    requires HaltsOnFailure(run) && !run.halted
    requires next.results == run.results + [result] && next.program == run.program
    requires next.halted <==> !result.ok && run.program.policy.Halts()
    ensures HaltsOnFailure(next)
  {
    assert next.results[|run.results|] == result;
    assert forall i | 0 <= i < |run.results| :: next.results[i] == run.results[i];
  }

  lemma {:induction false} ExplainedGrows(run: Run, next: Run, result: StepResult)
    requires Explained(run) && |run.results| < |run.program.steps|
    requires next.results == run.results + [result] && next.program == run.program
    requires result.unresolved ==>
               var r := Resolve(run.program.steps[|run.results|].args, Bindings(run.program, run.results));
               r.Failure? && result.output == ErrorOutput(r.error)
    ensures Explained(next)
  {
    assert next.results[..|run.results|] == run.results;
    assert forall i | 0 <= i < |run.results| ::
        next.results[i] == run.results[i] && next.results[..i] == run.results[..i];
  }

  /** One more result, in its place, keeps a run valid. */
  lemma {:induction false} GrewValid(run: Run, next: Run, result: StepResult)
    requires ValidRun(run) && !run.halted && run.cursor < |run.program.steps|
    requires next.program == run.program && next.results == run.results + [result] && next.cursor == run.cursor + 1
    requires next.pending.None? && (next.halted <==> !result.ok && run.program.policy.Halts())
    requires var step := run.program.steps[run.cursor];
             && result.index == run.cursor && result.id == step.id && result.op == step.op && result.tool == step.tool
             && (result.unresolved ==> !result.ok)
             && (result.unresolved ==>
                   var r := Resolve(step.args, run.outputs);
                   r.Failure? && result.output == ErrorOutput(r.error))
             && next.outputs == if result.unresolved then run.outputs else Bind(run.outputs, step, result.output)
    ensures ValidRun(next)
  {
    assert next.results[..|next.results| - 1] == run.results;
    ExplainedGrows(run, next, result);
    Appended(run, next, result);
  }

  lemma {:induction false} AskKeepsValid(run: Run)
    requires ValidRun(run)
    ensures ValidRun(AfterAsk(run))
  {
    match Answer(run)
    case Unresolved(result) => GrewValid(run, AfterAsk(run), result);
    case Call(step) =>
      assert Explained(AfterAsk(run));
    case Done =>
  }

  lemma {:induction false} RecordKeepsValid(run: Run, ok: bool, output: Json)
    requires ValidRun(run)
    ensures ValidRun(AfterRecord(run, ok, output))
  {
    var next := AfterRecord(run, ok, output);
    if run.pending.Some? {
      GrewValid(run, next, next.results[|run.results|]);
    }
  }

  // ----- whole runs -----

  datatype Event = Ask | Record(ok: bool, output: Json)

  function Handle(run: Run, event: Event): Run {
    match event
    case Ask => AfterAsk(run)
    case Record(ok, output) => AfterRecord(run, ok, output)
  }

  function RunAll(program: Program, events: seq<Event>): Run {
    if events == [] then Start(program)
    else Handle(RunAll(program, events[..|events| - 1]), events[|events| - 1])
  }

  lemma {:induction false} RunAllProgram(program: Program, events: seq<Event>)
    ensures RunAll(program, events).program == program
  {
    if events != [] {
      RunAllProgram(program, events[..|events| - 1]);
    }
  }

  /** The run invariant, over every sequence of events a host can produce. */
  lemma {:induction false} EveryRunIsValid(program: Program, events: seq<Event>)
    ensures ValidRun(RunAll(program, events))
    ensures RunAll(program, events).program == program
  {
    RunAllProgram(program, events);
    if events == [] {
      StartValid(program);
    } else {
      var before, last := events[..|events| - 1], events[|events| - 1];
      EveryRunIsValid(program, before);
      match last
      case Ask => AskKeepsValid(RunAll(program, before));
      case Record(ok, output) => RecordKeepsValid(RunAll(program, before), ok, output);
    }
  }

  /** Asking again without recording hands out the same step and changes nothing. */
  lemma {:induction false} AskTwice(run: Run)
    requires Answer(run).Call?
    ensures Answer(AfterAsk(run)) == Answer(run)
    ensures AfterAsk(AfterAsk(run)) == AfterAsk(run)
  {
  }

  /** What a report says of any run: the counts add up, and under a halting policy the first
      failure is the last thing that happened. */
  lemma {:induction false} ReportIsTrue(program: Program, events: seq<Event>)
    ensures var run := RunAll(program, events); var report := ReportOf(run);
            && report.planId == program.planId && report.policy == program.policy && report.results == run.results
            && report.ran + report.notRun == report.steps == |program.steps| && report.ran == |run.results|
            && report.ok == |OkResults(run.results)| <= report.ran
            && (report.failedAt.None? <==> report.ok == report.ran)
            && (report.failedAt.Some? ==>
                  && report.failedAt.value < report.ran && !report.results[report.failedAt.value].ok
                  && (forall i | 0 <= i < report.failedAt.value :: report.results[i].ok))
            && (report.failedAt.Some? && program.policy != Continue ==>
                 report.failedAt.value == report.ran - 1 && run.halted)
            && (report.failedAt.None? || program.policy == Continue ==> !run.halted)
            && (report.rollback <==> program.policy == Atomic && report.failedAt.Some?)
            && (Finished(run) && report.failedAt.None? ==> report.notRun == 0)
  {
    hide RunAll, ValidRun;
    EveryRunIsValid(program, events);
    ValidReport(RunAll(program, events));
  }

  lemma {:induction false} ValidReport(run: Run)
    requires ValidRun(run)
    ensures var report := ReportOf(run);
            && report.planId == run.program.planId && report.policy == run.program.policy
            && report.results == run.results
            && report.ran + report.notRun == report.steps == |run.program.steps| && report.ran == |run.results|
            && report.ok == |OkResults(run.results)| <= report.ran
            && (report.failedAt.None? <==> report.ok == report.ran)
            && (report.failedAt.Some? ==>
                  && report.failedAt.value < report.ran && !report.results[report.failedAt.value].ok
                  && (forall i | 0 <= i < report.failedAt.value :: report.results[i].ok))
            && (report.failedAt.Some? && run.program.policy != Continue ==>
                 report.failedAt.value == report.ran - 1 && run.halted)
            && (report.failedAt.None? || run.program.policy == Continue ==> !run.halted)
            && (report.rollback <==> run.program.policy == Atomic && report.failedAt.Some?)
            && (Finished(run) && report.failedAt.None? ==> report.notRun == 0)
  {
    hide Bindings, CountOk, FirstFailure, PendingMatches, Explained;
    Failures(run.results, 0);
    OkCounted(run.results);
  }

  /** Positions of the results that are ok. */
  ghost function OkResults(results: seq<StepResult>): set<nat> {
    set i: nat | i < |results| && results[i].ok
  }

  lemma {:induction false} OkCounted(results: seq<StepResult>)
    ensures CountOk(results) == |OkResults(results)|
  {
    if results != [] {
      var before, last := results[..|results| - 1], results[|results| - 1];
      OkCounted(before);
      CountLast(before, last);
      OkLast(before, last);
      assert results == before + [last];
    }
  }

  lemma {:induction false} OkLast(results: seq<StepResult>, last: StepResult)
    ensures |OkResults(results + [last])| == |OkResults(results)| + if last.ok then 1 else 0
  {
    var all, n := results + [last], |results|;
    forall i: nat ensures i in OkResults(all) <==> i in OkResults(results) || (i == n && last.ok) {
      assert i < n ==> all[i] == results[i];
      assert all[n] == last;
    }
    assert OkResults(all) == OkResults(results) + if last.ok then {n} else {};
  }

  lemma {:induction false} CountLast(results: seq<StepResult>, last: StepResult)
    ensures CountOk(results + [last]) == CountOk(results) + if last.ok then 1 else 0
  {
    if results == [] {
      assert [last][1..] == [];
    } else {
      CountLast(results[1..], last);
      assert (results + [last])[1..] == results[1..] + [last];
    }
  }

  lemma {:induction false} Failures(results: seq<StepResult>, base: nat)
    requires forall i | 0 <= i < |results| :: results[i].index == base + i
    ensures CountOk(results) <= |results|
    ensures FirstFailure(results).None? <==> CountOk(results) == |results|
    ensures FirstFailure(results).None? <==> forall i | 0 <= i < |results| :: results[i].ok
    ensures FirstFailure(results).Some? ==>
              var n := FirstFailure(results).value;
              && base <= n < base + |results| && !results[n - base].ok
              && forall i | 0 <= i < n - base :: results[i].ok
  {
    if results != [] {
      Failures(results[1..], base + 1);
      assert forall i | 0 < i < |results| :: results[i] == results[1..][i - 1];
    }
  }

  // ----- which output an operation's id names -----

  /** Index of the last result that was recorded (not unresolved) for an address, if any. */
  ghost predicate LastRecorded(program: Program, results: seq<StepResult>, k: nat, opId: string) {
    && k < |results| <= |program.steps|
    && !results[k].unresolved && program.steps[k].opId == opId
    && forall i | k < i < |results| :: results[i].unresolved || program.steps[i].opId != opId
  }

  /** An operation's id is bound exactly when some step of it was recorded, and then to the
      output of the last one.  Ids of other operations' steps must not read as this id, which
      holds of every compiled program because an operation id never holds a slash. */
  lemma {:induction false} OperationNamesLastStep(program: Program, results: seq<StepResult>, opId: string)
    requires |results| <= |program.steps|
    requires forall i | 0 <= i < |results| :: results[i].index == i
    requires forall i | 0 <= i < |program.steps| :: program.steps[i].id == opId ==> program.steps[i].opId == opId
    ensures opId in Bindings(program, results) <==> exists k: nat :: LastRecorded(program, results, k, opId)
    ensures forall k: nat :: LastRecorded(program, results, k, opId) ==>
              opId in Bindings(program, results) && Bindings(program, results)[opId] == results[k].output
    decreases |results|
  {
    if results != [] {
      var n := |results| - 1;
      var before, last := results[..n], results[n];
      OperationNamesLastStep(program, before, opId);
      assert forall i | 0 <= i < n :: before[i] == results[i];
      if !last.unresolved && program.steps[n].opId == opId {
        assert LastRecorded(program, results, n, opId);
        assert forall k: nat :: LastRecorded(program, results, k, opId) ==> k == n;
      } else {
        forall k: nat
          ensures LastRecorded(program, results, k, opId) <==> LastRecorded(program, before, k, opId)
        {
          assert LastRecorded(program, results, k, opId) ==> k != n;
        }
      }
    }
  }

  // ----- the state machine the host drives -----

  class Execution {
    const program: Program
    var outputs: Outputs
    var results: seq<StepResult>
    var cursor: nat
    var pending: Option<ResolvedStep>
    var halted: bool

    ghost function State(): Run
      reads this
    {
      Run(program, outputs, results, cursor, pending, halted)
    }

    /** A pending call is about a step of the program; all else a run keeps is `ValidRun`. */
    ghost predicate InRange()
      reads this
    {
      pending.Some? ==> pending.value.index < |program.steps|
    }

    constructor (program: Program)
      ensures State() == Start(program) && InRange()
    {
      this.program := program;
      outputs := map[];
      results := [];
      cursor := 0;
      pending := None;
      halted := false;
    }

    method NextStep() returns (next: Next)
      requires InRange()
      modifies this
      ensures next == Answer(old(State())) && State() == AfterAsk(old(State()))
      ensures InRange() && outputs == old(outputs)
      ensures next.Call? ==>
                && pending == Some(next.step)
                && results == old(results) && cursor == old(cursor) && halted == old(halted)
                && if old(pending).Some? then pending == old(pending)
                   else
                     && cursor < |program.steps| && next.step.index == cursor
                     && next.step.id == program.steps[cursor].id && next.step.op == program.steps[cursor].op
                     && next.step.tool == program.steps[cursor].tool
                     && Resolve(program.steps[cursor].args, outputs) == Success(next.step.args)
      ensures next.Unresolved? ==>
                && old(pending).None? && pending.None? && !old(halted) && cursor == old(cursor) + 1 <= |program.steps|
                && results == old(results) + [next.result] && next.result.unresolved && !next.result.ok
                && Resolve(program.steps[old(cursor)].args, outputs).Failure?
                && (halted <==> program.policy != Continue)
      ensures next.Done? ==>
                State() == old(State()) && pending.None? && (halted || cursor >= |program.steps|)
    {
      if pending.Some? {
        return Call(pending.value);
      }
      if halted || cursor >= |program.steps| {
        return Done;
      }
      var step := program.steps[cursor];
      var resolution := Resolve(step.args, outputs);
      match resolution
      case Success(args) =>
        var resolved := ResolvedStep(cursor, step.id, step.op, step.tool, args);
        pending := Some(resolved);
        next := Call(resolved);
      case Failure(error) =>
        var result := StepResult(cursor, step.id, step.op, step.tool, false, true, ErrorOutput(error));
        results := results + [result];
        cursor := cursor + 1;
        if program.policy.Halts() {
          halted := true;
        }
        next := Unresolved(result);
    }

    method RecordOutcome(ok: bool, output: Json)
      requires InRange()
      modifies this
      ensures State() == AfterRecord(old(State()), ok, output)
      ensures InRange()
      ensures old(pending).None? ==> State() == old(State())
      ensures old(pending).Some? ==>
                var step := old(pending).value; var opId := program.steps[step.index].opId;
                && pending.None? && cursor == old(cursor) + 1
                && results == old(results) +
                     [StepResult(step.index, step.id, step.op, step.tool, ok, false, output)]
                && outputs == old(outputs)[step.id := output][opId := output]
                && (halted <==> old(halted) || (!ok && program.policy != Continue))
    {
      if pending.None? {
        return;
      }
      var step := pending.value;
      pending := None;
      outputs := outputs[step.id := output];
      var opId := program.steps[step.index].opId;
      outputs := outputs[opId := output];
      results := results + [StepResult(step.index, step.id, step.op, step.tool, ok, false, output)];
      cursor := cursor + 1;
      if !ok && program.policy.Halts() {
        halted := true;
      }
    }

    method MakeReport() returns (report: Report)
      ensures report == ReportOf(State())
    {
      var failedAt := FirstFailure(results);
      report := Report(program.planId, |program.steps|, |results|, CountOk(results), failedAt,
                       if |program.steps| >= |results| then |program.steps| - |results| else 0,
                       failedAt.Some? && program.policy.RollsBack(), program.policy, results);
    }

    predicate IsFinished()
      reads this
      ensures IsFinished() <==> Finished(State())
    {
      pending.None? && (halted || cursor >= |program.steps|)
    }
  }
}
