/** A plan that cannot finish never starts: what compilation guarantees of every run. */
module Soundness {
  import opened Wrappers
  import opened Text
  import opened Json
  import opened Refs
  import opened RefLaws
  import opened RefMeaning
  import opened Plans
  import opened Programs
  import opened Compiler
  import opened Layout
  import opened Execute

  // ----- which addresses a run has bound -----

  ghost predicate NoneUnresolved(results: seq<StepResult>) {
    forall i | 0 <= i < |results| :: !results[i].unresolved
  }

  /** `x` addresses one of the first `n` steps, by its own id or its operation's. */
  ghost predicate Addressed(steps: seq<Step>, n: nat, x: string)
    requires n <= |steps|
  {
    exists i | 0 <= i < n :: steps[i].id == x || steps[i].opId == x
  }

  /** When no step so far was unresolved, the bound addresses are exactly those of the steps done. */
  lemma {:induction false} BoundAddresses(program: Program, results: seq<StepResult>, x: string)
    requires |results| <= |program.steps| && NoneUnresolved(results)
    requires forall i | 0 <= i < |results| :: results[i].index == i
    ensures x in Bindings(program, results) <==> Addressed(program.steps, |results|, x)
    decreases |results|
  {
    if results != [] {
      var n := |results| - 1;
      var before := results[..n];
      assert forall i | 0 <= i < n :: before[i] == results[i];
      BoundAddresses(program, before, x);
      if Addressed(program.steps, n, x) {
        var i :| 0 <= i < n && (program.steps[i].id == x || program.steps[i].opId == x);
        assert i < n + 1;
      }
    }
  }

  /** Whether a reference target is an operation that expanded to nothing. */
  ghost predicate NamesEmptyOp(ops: seq<Op>, expansion: seq<Expansion>, x: string) {
    exists b | 0 <= b < |ops| && b < |expansion| :: ops[b].id == x && expansion[b].steps == 0
  }

  /** A compiled program, as far as running it is concerned. */
  ghost predicate FromPlan(ops: seq<Op>, program: Program) {
    && DistinctIds(ops)
    && (forall a | 0 <= a < |ops| :: IsValidOpId(ops[a].id))
    && LaidOut(ops, program.steps, program.expansion)
    && forall a, i | 0 <= a < |ops| && 0 <= i < |program.steps| && program.steps[i].opId == ops[a].id ::
         && Scan(program.steps[i].args).Success?
         && forall r | r in Scan(program.steps[i].args).value :: Earlier(ops, program.steps, a, r.op)
  }

  lemma {:induction false} CompiledFromPlan(plan: Plan, library: Library)
    requires ValidPlan(plan) && Compiled(plan, library).Success?
    ensures FromPlan(plan.ops, Compiled(plan, library).value)
  {
    CompiledShape(plan, library);
  }

  /** An address earlier than the operation at hand is bound by the time it runs exactly when it
      does not name an operation that expanded to nothing. */
  lemma {:induction false} EarlierIsBound(ops: seq<Op>, program: Program, c: nat, a: nat, x: string)
    requires FromPlan(ops, program) && c < |program.steps| && a < |ops|
    requires Offset(program.expansion, a) <= c < Offset(program.expansion, a) + program.expansion[a].steps
    requires Earlier(ops, program.steps, a, x)
    ensures Addressed(program.steps, c, x) <==> !NamesEmptyOp(ops, program.expansion, x)
  {
    var steps, expansion := program.steps, program.expansion;
    var b :| 0 <= b < a && (x == ops[b].id || StepUnder(steps, ops[b].id, x));
    OffsetMonotone(expansion, b, a);
    if StepUnder(steps, ops[b].id, x) {
      var i :| 0 <= i < |steps| && steps[i].opId == ops[b].id && steps[i].id == x;
      var b' := Locate(ops, steps, expansion, i);
      assert b' == b;
      assert i < c && Addressed(steps, c, x);
      StepNamesNoEmptyOp(ops, program, i);
    } else if expansion[b].steps > 0 {
      FirstStepNames(ops, program, b);
      assert Addressed(steps, c, x);
      StepNamesNoEmptyOp(ops, program, Offset(expansion, b));
    } else {
      assert NamesEmptyOp(ops, expansion, x);
      EmptyOpUnaddressed(ops, program, b, c);
    }
  }

  lemma {:induction false} FirstStepNames(ops: seq<Op>, program: Program, b: nat)
    requires FromPlan(ops, program) && b < |ops| && program.expansion[b].steps > 0
    ensures Offset(program.expansion, b) < |program.steps|
    ensures program.steps[Offset(program.expansion, b)].opId == ops[b].id
  {
    assert Block(ops[b], program.steps, program.expansion[b], Offset(program.expansion, b));
  }

  lemma {:induction false} StepNamesNoEmptyOp(ops: seq<Op>, program: Program, i: nat)
    requires FromPlan(ops, program) && i < |program.steps|
    ensures !NamesEmptyOp(ops, program.expansion, program.steps[i].id)
    ensures !NamesEmptyOp(ops, program.expansion, program.steps[i].opId)
  {
    var a := Locate(ops, program.steps, program.expansion, i);
    StepIdsDistinct(ops, program.steps, program.expansion);
    assert program.expansion[a].steps > 0;
    forall d | 0 <= d < |ops| && (ops[d].id == program.steps[i].opId || ops[d].id == program.steps[i].id)
      ensures d == a
    {
    }
  }

  lemma {:induction false} EmptyOpUnaddressed(ops: seq<Op>, program: Program, b: nat, c: nat)
    requires FromPlan(ops, program) && b < |ops| && program.expansion[b].steps == 0 && c <= |program.steps|
    ensures !Addressed(program.steps, c, ops[b].id)
  {
    forall i | 0 <= i < c
      ensures program.steps[i].id != ops[b].id && program.steps[i].opId != ops[b].id
    {
      StepNamesNoEmptyOp(ops, program, i);
      assert NamesEmptyOp(ops, program.expansion, ops[b].id);
    }
  }

  // ----- soundness -----

  /** A step that was never called, and the error its references met. */
  ghost predicate FailedWith(result: StepResult, error: RefError) {
    result.unresolved && result.output == ErrorOutput(error)
  }

  /** The output of such a step names the kind of error, so a reader can tell one from another. */
  lemma {:induction false} ErrorKindIsTold(error: RefError)
    ensures Get(ErrorOutput(error).fields, "error_kind") == Some(Str(Code(error)))
    ensures Get(ErrorOutput(error).fields, "error") == Some(Str(Describe(error)))
    ensures Code(error) == match error
                           case UnknownOp(_, _) => "ref_unknown_op"
                           case NoSuchPath(_) => "ref_no_such_path"
                           case NotScalar(_) => "ref_not_scalar"
                           case Malformed(_) => "ref_malformed"
                           case Unterminated(_) => "ref_unterminated"
  {
    var one := Insert([], "error_kind", Str(Code(error)));
    GetAfterInsert(one, "error", Str(Describe(error)), "error_kind");
    GetAfterInsert(one, "error", Str(Describe(error)), "error");
    GetAfterInsert([], "error_kind", Str(Code(error)), "error_kind");
    assert |"error"| != |"error_kind"|;
  }

  /** What can stop the step at position `c` when everything before it was recorded: its references
      are all bound except those that name an operation which expanded to nothing. */
  lemma {:induction false} StepOutcome(ops: seq<Op>, program: Program, results: seq<StepResult>)
    requires FromPlan(ops, program) && |results| < |program.steps|
    requires NoneUnresolved(results) && forall i | 0 <= i < |results| :: results[i].index == i
    ensures var args := program.steps[|results|].args;
            var r := Resolve(args, Bindings(program, results));
            && Scan(args).Success?
            && (r.Failure? ==> r.error.UnknownOp? || r.error.NoSuchPath? || r.error.NotScalar?)
            && (r.Failure? && r.error.UnknownOp? ==>
                  exists x | x in Scan(args).value :: NamesEmptyOp(ops, program.expansion, x.op))
            && ((exists x | x in Scan(args).value :: NamesEmptyOp(ops, program.expansion, x.op)) ==> r.Failure?)
  {
    var c := |results|;
    var args, outputs := program.steps[c].args, Bindings(program, results);
    var a := Locate(ops, program.steps, program.expansion, c);
    assert program.steps[c].opId == ops[a].id;
    forall x | x in Scan(args).value
      ensures x.op in outputs <==> !NamesEmptyOp(ops, program.expansion, x.op)
    {
      assert Earlier(ops, program.steps, a, x.op);
      EarlierIsBound(ops, program, c, a, x.op);
      BoundAddresses(program, results, x.op);
    }
    WithDirect(args, outputs);
    ScannedResolves(args, outputs);
    if exists x | x in Scan(args).value :: NamesEmptyOp(ops, program.expansion, x.op) {
      var x :| x in Scan(args).value && NamesEmptyOp(ops, program.expansion, x.op);
      MissingStops(args, outputs, x);
    }
  }

  /** The step at `i` refers to an operation that expanded to nothing. */
  ghost predicate RefersToEmpty(ops: seq<Op>, program: Program, i: nat) {
    && i < |program.steps| && Scan(program.steps[i].args).Success?
    && exists x | x in Scan(program.steps[i].args).value :: NamesEmptyOp(ops, program.expansion, x.op)
  }

  /** Soundness.  Whatever the policy, a step of a run is never refused for a malformed or
      unterminated reference; and it is refused for naming an unknown operation only when it refers to
      one that expanded to nothing, or an earlier step was itself refused. */
  lemma {:induction false} RefusedStep(ops: seq<Op>, program: Program, run: Run, i: nat) returns (e: RefError)
    requires FromPlan(ops, program) && run.program == program && ValidRun(run)
    requires i < |run.results| && run.results[i].unresolved
    ensures FailedWith(run.results[i], e)
    ensures e.UnknownOp? || e.NoSuchPath? || e.NotScalar?
    ensures e.UnknownOp? ==> RefersToEmpty(ops, program, i) || exists j | 0 <= j < i :: run.results[j].unresolved
  {
    var before := run.results[..i];
    var outputs := Bindings(program, before);
    var args := program.steps[i].args;
    var a := Locate(ops, program.steps, program.expansion, i);
    assert program.steps[i].opId == ops[a].id;
    e := Resolve(args, outputs).error;
    WithDirect(args, outputs);
    ScannedResolves(args, outputs);
    if NoneUnresolved(before) {
      StepOutcome(ops, program, before);
    } else {
      var j :| 0 <= j < |before| && before[j].unresolved;
      assert run.results[j].unresolved;
    }
  }

  /** Under a halting policy no step of any run of a compiled plan is refused as unknown, malformed or
      unterminated, unless it refers itself to an operation that expanded to nothing: only a missing
      path, or a composite inside a string, can stop it.  Under `continue`, an unknown operation can also
      mean that some earlier step was refused. */
  lemma {:induction false} CompiledPlansAreSound(plan: Plan, library: Library, events: seq<Event>)
    requires ValidPlan(plan) && Compiled(plan, library).Success?
    ensures var program := Compiled(plan, library).value;
            var run := RunAll(program, events);
            forall i | 0 <= i < |run.results| && run.results[i].unresolved ::
              exists e :: FailedWith(run.results[i], e) && (e.UnknownOp? || e.NoSuchPath? || e.NotScalar?) &&
                          (RefersToEmpty(plan.ops, program, i) || Tolerable(plan.policy, run.results[..i], e))
  {
    hide Compiled, RunAll, FromPlan, ValidPlan, RefersToEmpty, ValidRun, FailedWith, Tolerable;
    var program := Compiled(plan, library).value;
    var run := RunAll(program, events);
    CompiledShape(plan, library);
    CompiledFromPlan(plan, library);
    EveryRunIsValid(program, events);
    forall i | 0 <= i < |run.results| && run.results[i].unresolved
      ensures exists e :: FailedWith(run.results[i], e) && (e.UnknownOp? || e.NoSuchPath? || e.NotScalar?) &&
                          (RefersToEmpty(plan.ops, program, i) || Tolerable(plan.policy, run.results[..i], e))
    {
      var e := RefusedStep(plan.ops, program, run, i);
      if !RefersToEmpty(plan.ops, program, i) {
        StaysTolerable(run, i, e);
      }
    }
  }

  /** An earlier refusal is a failure, and a halting run has none before its last result. */
  lemma {:induction false} StaysTolerable(run: Run, i: nat, e: RefError)
    requires ValidRun(run) && i < |run.results|
    requires e.UnknownOp? || e.NoSuchPath? || e.NotScalar?
    requires e.UnknownOp? ==> exists j | 0 <= j < i :: run.results[j].unresolved
    ensures Tolerable(run.program.policy, run.results[..i], e)
  {
    if e.UnknownOp? {
      var j :| 0 <= j < i && run.results[j].unresolved;
      assert !run.results[j].ok && run.results[..i][j].unresolved;
    }
  }

  /** The errors a compiled plan cannot exclude, `before` being the results so far. */
  ghost predicate Tolerable(policy: RollbackPolicy, before: seq<StepResult>, e: RefError) {
    || e.NoSuchPath?
    || e.NotScalar?
    || (e.UnknownOp? && policy.Continue? && exists j | 0 <= j < |before| :: before[j].unresolved)
  }

  /** Exactly when the claim holds.  With everything before it recorded, the next step is certain to
      be refused, whatever the outputs were, if it refers to an operation that expanded to nothing,
      and otherwise it cannot be refused for naming an unknown operation. */
  lemma {:induction false} EmptyOpsAreTheOnlyGap(plan: Plan, library: Library, events: seq<Event>)
    requires ValidPlan(plan) && Compiled(plan, library).Success?
    requires var run := RunAll(Compiled(plan, library).value, events);
             NoneUnresolved(run.results) && run.pending.None? && !run.halted && run.cursor < |run.program.steps|
    ensures var run := RunAll(Compiled(plan, library).value, events);
            var args := run.program.steps[run.cursor].args;
            && Scan(args).Success?
            && if exists x | x in Scan(args).value :: NamesEmptyOp(plan.ops, run.program.expansion, x.op)
               then Answer(run).Unresolved?
               else Answer(run).Unresolved? ==>
                   exists e :: FailedWith(Answer(run).result, e) && (e.NoSuchPath? || e.NotScalar?)
  {
    var program := Compiled(plan, library).value;
    var run := RunAll(program, events);
    CompiledFromPlan(plan, library);
    EveryRunIsValid(program, events);
    StepOutcome(plan.ops, program, run.results);
    var r := Resolve(program.steps[run.cursor].args, run.outputs);
    if r.Failure? {
      assert FailedWith(Answer(run).result, r.error);
    }
  }

  // ----- what the tolerant forms mean -----

  lemma {:induction false} PositionIsNoId(target: string)
    requires PositionTarget(target).Some?
    ensures !IsValidRefTarget(target) && !AllDigits(target)
  {
    assert target[0] == "ops["[0] && target[3] == target[..4][3] == '[';
  }

  /** Every answer of the resolver can stand in a reference. */
  lemma {:induction false} ResolverTargets(plan: Plan, steps: seq<Step>, a: nat)
    requires ValidPlan(plan) && a < |plan.ops|
    ensures Targets(Resolver(NamesOf(plan.ops, steps), a, plan.ops[a].id))
  {
    var names := NamesOf(plan.ops, steps);
    var target := Resolver(names, a, plan.ops[a].id);
    forall r: Reference | IsTarget(r.op) && target(r).Success?
      ensures IsTarget(target(r).value)
    {
      var id := target(r).value;
      if id != r.op {
        ResolvedIsId(plan.ops, steps, a, r);
        var k :| 0 <= k < |plan.ops| && plan.ops[k].id == id;
        assert IsValidOpId(plan.ops[k].id);
      }
    }
  }

  lemma {:induction false} ResolvedIsId(ops: seq<Op>, steps: seq<Step>, a: nat, r: Reference)
    requires a < |ops|
    requires var t := ResolveTarget(NamesOf(ops, steps), a, ops[a].id, r); t.Success? && t.value != r.op
    ensures exists k | 0 <= k < |ops| :: ops[k].id == ResolveTarget(NamesOf(ops, steps), a, ops[a].id, r).value
  {
    var names := NamesOf(ops, steps);
    var id := ResolveTarget(names, a, ops[a].id, r).value;
    if r.op in names.byType && names.byType[r.op] == [id] {
      assert id in OfType(ops, r.op);
      OfTypeMember(ops, r.op, id);
      var k :| 0 <= k < |ops| && ops[k].id == id && ops[k].op == r.op;
    } else {
      assert id in names.byPosition;
      var k :| 0 <= k < |names.byPosition| && names.byPosition[k] == id;
      assert ops[k].id == id;
    }
  }

  lemma {:induction false} OfTypeMember(ops: seq<Op>, kind: string, id: string)
    ensures id in OfType(ops, kind) <==> exists k | 0 <= k < |ops| :: ops[k].id == id && ops[k].op == kind
  {
    if ops != [] {
      OfTypeMember(ops[1..], kind, id);
      if exists k | 0 <= k < |ops[1..]| :: ops[1..][k].id == id && ops[1..][k].op == kind {
        var k :| 0 <= k < |ops[1..]| && ops[1..][k].id == id && ops[1..][k].op == kind;
        assert ops[k + 1].id == id && ops[k + 1].op == kind;
      }
      if exists k | 0 < k < |ops| :: ops[k].id == id && ops[k].op == kind {
        var k :| 0 < k < |ops| && ops[k].id == id && ops[k].op == kind;
        assert ops[1..][k - 1].id == id && ops[1..][k - 1].op == kind;
      }
    }
  }

  /** Exactly one operation of the plan has this type. */
  ghost predicate OnlyOfType(ops: seq<Op>, kind: string, k: nat) {
    && k < |ops| && ops[k].op == kind
    && forall j | 0 <= j < |ops| && ops[j].op == kind :: j == k
  }

  lemma {:induction false} OfTypeSingle(ops: seq<Op>, kind: string)
    ensures |OfType(ops, kind)| == 1 <==> exists k: nat :: OnlyOfType(ops, kind, k)
    ensures forall k: nat :: OnlyOfType(ops, kind, k) ==> OfType(ops, kind) == [ops[k].id]
  {
    if ops != [] {
      OfTypeSingle(ops[1..], kind);
      var rest := OfType(ops[1..], kind);
      OfTypeSome(ops[1..], kind);
      if ops[0].op == kind {
        if rest == [] {
          assert forall j | 0 < j < |ops| :: ops[j] == ops[1..][j - 1] && ops[1..][j - 1].op in Types(ops[1..]);
          assert OnlyOfType(ops, kind, 0);
        } else {
          var i :| 0 <= i < |ops[1..]| && ops[1..][i].op == kind;
          assert ops[i + 1].op == kind;
          assert forall k: nat :: !OnlyOfType(ops, kind, k);
        }
      } else {
        forall k: nat
          ensures OnlyOfType(ops, kind, k) <==> k > 0 && OnlyOfType(ops[1..], kind, k - 1)
        {
          assert forall j | 0 < j < |ops| :: ops[j] == ops[1..][j - 1];
          if k > 0 && OnlyOfType(ops[1..], kind, k - 1) {
            assert forall j | 0 < j < |ops| && ops[j].op == kind :: ops[1..][j - 1].op == kind;
          }
          if k > 0 && OnlyOfType(ops, kind, k) {
            assert forall j | 0 <= j < |ops[1..]| && ops[1..][j].op == kind :: ops[j + 1].op == kind;
          }
        }
        if exists k: nat :: OnlyOfType(ops[1..], kind, k) {
          var k: nat :| OnlyOfType(ops[1..], kind, k);
          assert OnlyOfType(ops, kind, k + 1);
        }
        if exists k: nat :: OnlyOfType(ops, kind, k) {
          var k: nat :| OnlyOfType(ops, kind, k);
          assert OnlyOfType(ops[1..], kind, k - 1);
        }
        assert forall k: nat :: OnlyOfType(ops, kind, k) ==> OnlyOfType(ops[1..], kind, k - 1);
      }
    }
  }

  ghost predicate IdBefore(ops: seq<Op>, n: nat, t: string)
    requires n <= |ops|
  {
    exists k | 0 <= k < n :: ops[k].id == t
  }

  ghost predicate StepNamed(steps: seq<Step>, t: string) {
    exists i | 0 <= i < |steps| :: steps[i].id == t
  }

  lemma {:induction false} IdsBefore(ops: seq<Op>, n: nat, t: string)
    requires n <= |ops|
    ensures t in Ids(ops)[..n] <==> IdBefore(ops, n, t)
  {
    if IdBefore(ops, n, t) {
      var k :| 0 <= k < n && ops[k].id == t;
      assert Ids(ops)[..n][k] == t;
    }
  }

  lemma {:induction false} InUniverse(ops: seq<Op>, steps: seq<Step>, t: string)
    ensures t in NamesOf(ops, steps).universe <==> IdBefore(ops, |ops|, t) || StepNamed(steps, t)
  {
    var universe := NamesOf(ops, steps).universe;
    if IdBefore(ops, |ops|, t) {
      var k :| 0 <= k < |ops| && ops[k].id == t;
      assert universe[k] == t;
    }
    if StepNamed(steps, t) {
      var i :| 0 <= i < |steps| && steps[i].id == t;
      assert universe[|ops| + i] == t;
    }
  }

  predicate Numeric(t: string) {
    t != "" && AllDigits(t)
  }

  /** A bare number names an operation at an earlier position. */
  predicate PositionBefore(a: nat, t: string) {
    Numeric(t) && DecimalValue(t) < a && DecimalValue(t) <= U64_MAX
  }

  /** `${ops[N]}` is the operation at position N. */
  lemma {:induction false} PositionForm(plan: Plan, steps: seq<Step>, a: nat, r: Reference)
    requires a < |plan.ops| && PositionTarget(r.op).Some?
    ensures var n := PositionTarget(r.op).value;
            ResolveTarget(NamesOf(plan.ops, steps), a, plan.ops[a].id, r) ==
            Success(if n < |plan.ops| then plan.ops[n].id else r.op)
  {
    PositionIsNoId(r.op);
  }

  /** A bare number is an earlier position or an earlier id, and is refused when it could be both. */
  lemma {:induction false} NumericForm(plan: Plan, steps: seq<Step>, a: nat, r: Reference)
    requires a < |plan.ops| && Numeric(r.op)
    requires PositionBefore(a, r.op) || IdBefore(plan.ops, a, r.op)
    ensures var answer := ResolveTarget(NamesOf(plan.ops, steps), a, plan.ops[a].id, r);
            if PositionBefore(a, r.op) && IdBefore(plan.ops, a, r.op)
            then answer == Failure(AmbiguousNumericReference(plan.ops[a].id, Show(r), Ids(plan.ops)))
            else if PositionBefore(a, r.op) then answer == Success(plan.ops[DecimalValue(r.op)].id)
            else answer == Success(r.op)
  {
    IdsBefore(plan.ops, a, r.op);
  }

  /** Any other target is itself when it is an id, and otherwise the one operation of the type it
      names; two of that type are refused. */
  lemma {:induction false} NamedForm(plan: Plan, steps: seq<Step>, a: nat, r: Reference)
    requires a < |plan.ops| && PositionTarget(r.op).None?
    requires !PositionBefore(a, r.op) && !(Numeric(r.op) && IdBefore(plan.ops, a, r.op))
    ensures var ops, t := plan.ops, r.op;
            var answer := ResolveTarget(NamesOf(ops, steps), a, ops[a].id, r);
            var isId := IdBefore(ops, |ops|, t) || StepNamed(steps, t);
            && (isId ==> answer == Success(t))
            && (!isId ==> forall k: nat :: OnlyOfType(ops, t, k) ==> answer == Success(ops[k].id))
            && (answer.Failure? <==> !isId && t in Types(ops) && !exists k: nat :: OnlyOfType(ops, t, k))
            && (answer.Failure? ==>
                  && answer.error.AmbiguousOpTypeReference?
                  && answer.error == AmbiguousOpTypeReference(ops[a].id, Show(r), t, answer.error.candidates)
                  && forall x :: x in answer.error.candidates <==>
                                 exists k | 0 <= k < |ops| :: ops[k].op == t && ops[k].id == x)
            && (!isId && t !in Types(ops) ==> answer == Success(t))
  {
    var ops, t := plan.ops, r.op;
    var names := NamesOf(ops, steps);
    IdsBefore(ops, a, t);
    InUniverse(ops, steps, t);
    OfTypeSingle(ops, t);
    OfTypeSome(ops, t);
    assert t in names.byType ==> names.byType[t] == OfType(ops, t);
    assert forall k: nat :: OnlyOfType(ops, t, k) ==> ops[k].op in Types(ops);
    forall x ensures x in OfType(ops, t) <==> exists k | 0 <= k < |ops| :: ops[k].op == t && ops[k].id == x {
      OfTypeHas(ops, t, x);
    }
  }

  lemma {:induction false} OfTypeHas(ops: seq<Op>, kind: string, x: string)
    ensures x in OfType(ops, kind) <==> exists k | 0 <= k < |ops| :: ops[k].op == kind && ops[k].id == x
  {
    if ops != [] {
      OfTypeHas(ops[1..], kind, x);
      if k :| 0 <= k < |ops| && ops[k].op == kind && ops[k].id == x {
        assert k > 0 ==> ops[1..][k - 1] == ops[k];
      }
      if k :| 0 <= k < |ops[1..]| && ops[1..][k].op == kind && ops[1..][k].id == x {
        assert ops[k + 1] == ops[1..][k];
      }
    }
  }

  /** Compilation preserves meaning.  A compiled step's arguments resolve, against any outputs, to
      what the expanded arguments resolve to when each reference is read as the operation its
      target stands for. */
  lemma {:induction false} CompiledKeepsMeaning(plan: Plan, library: Library, i: nat, a: nat, outputs: Outputs)
    requires ValidPlan(plan) && Compiled(plan, library).Success?
    requires var steps := ExpandFrom(plan, library, 0, Expanded([], [])).value.steps;
             && i < |steps| && a < |plan.ops| && steps[i].opId == plan.ops[a].id && NoEscapes(steps[i].args)
    ensures var steps := ExpandFrom(plan, library, 0, Expanded([], [])).value.steps;
            var program := Compiled(plan, library).value;
            && |program.steps| == |steps| && program.steps[i].tool == steps[i].tool
            && SameOutcome(ResolveWith(steps[i].args,
                                       Via(Resolver(NamesOf(plan.ops, steps), a, plan.ops[a].id), outputs)),
                           Resolve(program.steps[i].args, outputs))
  {
    var steps := ExpandFrom(plan, library, 0, Expanded([], [])).value.steps;
    var names := NamesOf(plan.ops, steps);
    var target := Resolver(names, a, plan.ops[a].id);
    RewriteFromArgs(names, plan.ops, 0, steps);
    var program := Compiled(plan, library).value;
    assert RewriteArgs(names, a, plan.ops[a], steps[i].args) == Success(program.steps[i].args);
    ResolverTargets(plan, steps, a);
    RewriteKeepsMeaning(steps[i].args, target, outputs);
  }

  // ----- programs without references -----

  lemma {:induction false} CallParts(tool: string, args: Json)
    ensures Get(ToCall(tool, args).fields, "tool") == Some(Str(tool))
    ensures Get(ToCall(tool, args).fields, "args") == Some(args)
  {
    var one := Insert([], "tool", Str(tool));
    GetAfterInsert(one, "args", args, "tool");
    GetAfterInsert(one, "args", args, "args");
    GetAfterInsert([], "tool", Str(tool), "tool");
    assert "tool"[0] != "args"[0];
  }

  /** A compiled program without references never has a step refused, and what it hands out is the
      program's own listing, entry by entry, exactly where the listing holds no escape. */
  lemma {:induction false} PlainProgramIsItsListing(plan: Plan, library: Library, events: seq<Event>)
    requires ValidPlan(plan) && Compiled(plan, library).Success? && !HasReferences(Compiled(plan, library).value)
    ensures var program := Compiled(plan, library).value;
            var run := RunAll(program, events);
            && NoneUnresolved(run.results)
            && !Answer(run).Unresolved?
            && (Answer(run).Call? ==>
                  var call := Answer(run).step;
                  && call.index == run.cursor < |program.steps|
                  && (ToCall(call.tool, call.args) == ToCalls(program).items[run.cursor]
                      <==> NoEscapes(program.steps[run.cursor].args)))
  {
    var program := Compiled(plan, library).value;
    var run := RunAll(program, events);
    CompiledShape(plan, library);
    EveryRunIsValid(program, events);
    forall i, outputs: Outputs | 0 <= i < |program.steps|
      ensures Resolve(program.steps[i].args, outputs).Success?
      ensures Resolve(program.steps[i].args, outputs) == Success(program.steps[i].args) <==>
                NoEscapes(program.steps[i].args)
    {
      var a := Locate(plan.ops, program.steps, program.expansion, i);
      assert program.steps[i].opId == plan.ops[a].id;
      assert Scan(program.steps[i].args) == Success([]);
      WithDirect(program.steps[i].args, outputs);
      PlainResolves(program.steps[i].args, outputs);
    }
    assert NoneUnresolved(run.results) by {
      forall i | 0 <= i < |run.results|
        ensures !run.results[i].unresolved
      {
        var r := Resolve(program.steps[i].args, Bindings(program, run.results[..i]));
        assert r.Success?;
      }
    }
    if Answer(run).Call? {
      var call, step := Answer(run).step, program.steps[run.cursor];
      CallParts(call.tool, call.args);
      CallParts(step.tool, step.args);
    }
  }

  // ----- the two gaps, each with an input -----

  lemma {:induction false} EscapeReads(rest: string)
    requires '$' !in rest
    ensures Parse("$${" + rest) == Success(Literal("${" + rest))
  {
    var whole, text := "$${" + rest, "${" + rest;
    assert whole[3..] == rest;
    PlainChars(whole, rest);
    assert [Chr('$'), Chr('{')] + Chars(rest) == Chars(text);
    assert Tokens(whole, whole) == Success(Chars(text));
    OnlyText("", Chars(text));
    CharsPrint(text);
    assert "" + Print(Chars(text)) == text;
  }

  /** An escape does not survive compilation: `$${x}` reads as the text `${x}`, is written out as
      that text, and from then on reads as a reference to `x`. */
  lemma {:induction false} EscapeIsLost<E>(target: Reference -> Result<string, E>)
    ensures Parse("$${x}") == Success(Literal("${x}"))
    ensures RewriteString("$${x}", target) == Success("${x}")
    ensures Parse("${x}") == Success(Whole(Reference("x", [])))
  {
    assert "$${" + "x}" == "$${x}" && "${" + "x}" == "${x}" && "${" + "x" + "}" == "${x}";
    EscapeReads("x}");
    RewriteLiteral("$${x}", "${x}", target);
    OneReference("x");
  }

  lemma {:induction false} RewriteLiteral<E>(s: string, text: string, target: Reference -> Result<string, E>)
    requires Parse(s) == Success(Literal(text))
    ensures RewriteString(s, target) == Success(text)
  {
  }

  lemma {:induction false} PlainChars(whole: string, s: string)
    requires '$' !in s
    ensures Tokens(whole, s) == Success(Chars(s))
  {
    if s == "" {
      assert Chars(s) == [];
    } else {
      PlainChars(whole, s[1..]);
      assert s[0] in s && forall c | c in s[1..] :: c in s;
      assert [Chr(s[0])] + Chars(s[1..]) == Chars(s);
    }
  }

  lemma {:induction false} CharsPrint(s: string)
    ensures Print(Chars(s)) == s
  {
    if s != "" {
      CharsPrint(s[1..]);
      assert Chars(s)[0] == Chr(s[0]) && Chars(s)[1..] == Chars(s[1..]);
      assert [s[0]] + s[1..] == s;
    }
  }

  /** A string that is one reference to an operation. */
  lemma {:induction false} OneReference(op: string)
    requires IsValidRefTarget(op)
    ensures Parse("${" + op + "}") == Success(Whole(Reference(op, [])))
    ensures Scan(Str("${" + op + "}")) == Success([Reference(op, [])])
  {
    var r := Reference(op, []);
    assert Body(r) == op;
    TargetPlain(op, '}');
    var s := Show(r);
    assert s + "" == s && s == "${" + op + "}";
    ReferenceToken(s, r, "");
    assert Tokens(s, "") == Success([]) && [Ref(r)] + [] == [Ref(r)];
    assert Tokens(s, s) == Success([Ref(r)]);
    assert [Ref(r)][1..] == [];
    assert Group("", [Ref(r)]) == [Named(r)];
  }

  /** A library in which the operation type `nothing` expands to no tool call. */
  function SparseLibrary(): Library {
    (op: Op) => if op.op == "nothing" then Success([]) else Success([StepSpec("use", op.with)])
  }

  function GapPlan(): Plan {
    Plan("", IR_VERSION, [], [], [],
         [Op("a", "nothing", Obj([])), Op("b", "use", Obj([Field("r", Str("${a}"))]))], [], [], Atomic)
  }

  function GapArgs(): Json {
    Obj([Field("r", Str("${a}"))])
  }

  function GapStep(): Step {
    Step("b", "b", "use", "use", GapArgs())
  }

  function GapExpanded(): Expanded {
    Expanded([GapStep()], [Expansion("a", "nothing", 0), Expansion("b", "use", 1)])
  }

  lemma {:induction false} GapExpands()
    ensures ExpandFrom(GapPlan(), SparseLibrary(), 0, Expanded([], [])) == Success(GapExpanded())
  {
    var plan, library := GapPlan(), SparseLibrary();
    var first := Expanded([], [Expansion("a", "nothing", 0)]);
    assert "nothing"[0] != "use"[0];
    assert StepsOf(plan.ops[0], []) == [] && library(plan.ops[0]) == Success([]);
    assert [] + [Expansion("a", "nothing", 0)] == [Expansion("a", "nothing", 0)];
    assert ExpandOne(plan.ops[0], [], library, Expanded([], [])) == Success(first);
    GapExpandsSecond(first);
    assert ExpandFrom(plan, library, 2, GapExpanded()) == Success(GapExpanded());
    assert ExpandFrom(plan, library, 1, first) == Success(GapExpanded());
  }

  lemma {:induction false} GapExpandsSecond(first: Expanded)
    requires first == Expanded([], [Expansion("a", "nothing", 0)])
    ensures ExpandOne(GapPlan().ops[1], [], SparseLibrary(), first) == Success(GapExpanded())
  {
    var op := GapPlan().ops[1];
    assert "nothing"[0] != "use"[0];
    assert SparseLibrary()(Effective(op, [])) == Success([StepSpec("use", GapArgs())]);
    assert StepsOf(op, [StepSpec("use", GapArgs())]) == [GapStep()];
    assert [] + [GapStep()] == [GapStep()] && [GapStep()][1..] == [];
    assert CountOf([GapStep()], "b") == 1;
    assert [Expansion("a", "nothing", 0)] + [Expansion("b", "use", 1)] == GapExpanded().expansion;
  }

  lemma {:induction false} GapScan()
    ensures Scan(GapArgs()) == Success([Reference("a", [])])
  {
    OneReference("a");
    var fields := [Field("r", Str("${a}"))];
    assert "${" + "a" + "}" == "${a}";
    assert fields[1..] == [] && ScanFields([]) == Success([]);
    assert [Reference("a", [])] + [] == [Reference("a", [])];
  }

  lemma {:induction false} GapTarget(names: Names)
    requires names == NamesOf(GapPlan().ops, [GapStep()])
    ensures Resolver(names, 1, "b")(Reference("a", [])) == Success("a")
  {
    assert names.universe[0] == "a" && !IsDigit("a"[0]) && "a"[0] != "ops["[0];
  }

  lemma {:induction false} GapRewrites(names: Names)
    requires names == NamesOf(GapPlan().ops, [GapStep()])
    ensures Rewrite(GapArgs(), Resolver(names, 1, "b")) == Success(GapArgs())
  {
    var target := Resolver(names, 1, "b");
    var r := Reference("a", []);
    OneReference("a");
    assert "${" + "a" + "}" == "${a}" && Body(r) == "a" && Show(r) == "${a}";
    GapTarget(names);
    hide Resolver, NamesOf, Parse;
    assert RewriteString("${a}", target) == Success("${a}");
    var fields := [Field("r", Str("${a}"))];
    assert fields[1..] == [] && RewriteFields([], target) == Success([]);
    assert Rewrite(Str("${a}"), target) == Success(Str("${a}"));
    assert [Field("r", Str("${a}"))] + [] == fields;
    assert RewriteFields(fields, target) == Success(fields);
  }

  lemma {:induction false} GapCanonical(names: Names)
    requires names == NamesOf(GapPlan().ops, [GapStep()])
    ensures RewriteFrom(names, GapPlan().ops, 0, [GapStep()]) == Success([GapStep()])
  {
    var ops, step := GapPlan().ops, GapStep();
    GapRewrites(names);
    assert "b"[0] != "a"[0];
    assert [step][1..] == [] && [step] + [] == [step] && step.(args := step.args) == step;
    assert RewriteSteps(names, 0, ops[0], []) == Success([]) && RewriteSteps(names, 1, ops[1], []) == Success([]);
    assert RewriteSteps(names, 0, ops[0], [step]) == Success([step]);
    assert RewriteSteps(names, 1, ops[1], [step]) == Success([step]);
    assert RewriteFrom(names, ops, 2, [step]) == Success([step]);
    assert RewriteFrom(names, ops, 1, [step]) == Success([step]);
  }

  lemma {:induction false} GapChecks(universe: seq<string>)
    ensures CheckFrom(GapPlan().ops, 0, [GapStep()], [], universe) == None
  {
    var ops := GapPlan().ops;
    GapScan();
    assert "b"[0] != "a"[0];
    assert ListsEarlier(ops, [GapStep()], 0, []);
    CheckedFrom(ops, 0, [GapStep()], [], universe);
    assert Earlier(ops, [GapStep()], 1, "a") by { assert ops[0].id == "a"; }
  }

  lemma {:induction false} GapResolves()
    ensures Resolve(GapArgs(), map[]) == Failure(UnknownOp("${a}", "a"))
  {
    OneReference("a");
    var r := Reference("a", []);
    assert "${" + "a" + "}" == "${a}" && Body(r) == "a" && Show(r) == "${a}";
    var fields := [Field("r", Str("${a}"))];
    WithDirect(GapArgs(), map[]);
    assert Direct(map[])(r) == Failure(UnknownOp("${a}", "a"));
    assert ResolveWith(Str("${a}"), Direct(map[])) == Failure(UnknownOp("${a}", "a"));
    assert ResolveFields(fields, Direct(map[])) == Failure(UnknownOp("${a}", "a"));
  }

  /** The gap an empty operation leaves: this plan is valid and compiles, and its only step is
      refused in every run for naming an operation that has no output, and says so. */
  lemma {:induction false} EmptyOpGap()
    ensures ValidPlan(GapPlan()) && Compiled(GapPlan(), SparseLibrary()).Success?
    ensures var answer := Answer(Start(Compiled(GapPlan(), SparseLibrary()).value));
            && answer.Unresolved? && FailedWith(answer.result, UnknownOp("${a}", "a"))
            && Get(answer.result.output.fields, "error_kind") == Some(Str("ref_unknown_op"))
  {
    hide *;
    GapIsValid();
    GapCompiles();
    GapResolves();
    ErrorKindIsTold(UnknownOp("${a}", "a"));
    GapAnswers(Compiled(GapPlan(), SparseLibrary()).value);
  }

  lemma {:induction false} GapIsValid()
    ensures ValidPlan(GapPlan())
  {
    assert GapPlan().ops[0].id[0] != GapPlan().ops[1].id[0];
  }

  lemma {:induction false} GapCompiles()
    ensures Compiled(GapPlan(), SparseLibrary()).Success?
    ensures Compiled(GapPlan(), SparseLibrary()).value.steps == [GapStep()]
  {
    hide ExpandFrom, RewriteFrom, CheckFrom, NamesOf;
    GapExpands();
    var names := NamesOf(GapPlan().ops, [GapStep()]);
    GapCanonical(names);
    GapChecks(names.universe);
  }

  lemma {:induction false} GapAnswers(program: Program)
    requires program.steps == [GapStep()] && Resolve(GapArgs(), map[]) == Failure(UnknownOp("${a}", "a"))
    requires Get(ErrorOutput(UnknownOp("${a}", "a")).fields, "error_kind") ==
             Some(Str(Code(UnknownOp("${a}", "a"))))
    ensures var answer := Answer(Start(program));
            && answer.Unresolved? && FailedWith(answer.result, UnknownOp("${a}", "a"))
            && Get(answer.result.output.fields, "error_kind") == Some(Str("ref_unknown_op"))
  {
    hide Resolve, ErrorOutput;
  }
}
