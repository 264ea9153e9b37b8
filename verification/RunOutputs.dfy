/** Which output each address of a run names, told over the results the run recorded. */
module RunOutputs {
  import opened Wrappers
  import opened Text
  import opened Json
  import opened Refs
  import opened Plans
  import opened Programs
  import opened Compiler
  import opened Layout
  import opened Execute

  /** Step `k` was called and its outcome recorded. */
  ghost predicate Recorded(run: Run, k: nat) {
    k < |run.results| && k < |run.program.steps| && !run.results[k].unresolved
  }

  /** A step's id names that step's output from the moment it is recorded. */
  ghost predicate StepNamesOwn(run: Run, k: nat) {
    && k < |run.program.steps|
    && (run.program.steps[k].id in run.outputs <==> Recorded(run, k))
    && (Recorded(run, k) ==> run.outputs[run.program.steps[k].id] == run.results[k].output)
  }

  /** No later recorded step is of the same operation. */
  ghost predicate LastOf(run: Run, k: nat, opId: string) {
    && Recorded(run, k) && run.program.steps[k].opId == opId
    && forall i | k < i < |run.results| :: Recorded(run, i) ==> run.program.steps[i].opId != opId
  }

  /** An operation's id names the output of the last of its steps recorded so far. */
  ghost predicate OpNamesLast(run: Run, opId: string) {
    && (opId in run.outputs <==> exists k: nat :: LastOf(run, k, opId))
    && forall k: nat :: LastOf(run, k, opId) ==> opId in run.outputs && run.outputs[opId] == run.results[k].output
  }

  /** An address names an output only as the id of a recorded step or of its operation. */
  ghost predicate Addresses(run: Run, x: string) {
    exists k: nat :: Recorded(run, k) && (run.program.steps[k].id == x || run.program.steps[k].opId == x)
  }

  /** Step ids are distinct, and one that reads as an operation's id is that operation's only step. */
  ghost predicate OwnIds(steps: seq<Step>) {
    && (forall i, j | 0 <= i < |steps| && 0 <= j < |steps| && steps[i].id == steps[j].id :: i == j)
    && forall i, j | 0 <= i < |steps| && 0 <= j < |steps| && steps[i].id == steps[j].opId :: i == j
  }

  lemma {:induction false} IdIsOnlyStep(ops: seq<Op>, steps: seq<Step>, expansion: seq<Expansion>, i: nat, j: nat)
    requires LaidOut(ops, steps, expansion) && DistinctIds(ops)
    requires forall a | 0 <= a < |ops| :: IsValidOpId(ops[a].id)
    requires i < |steps| && j < |steps| && steps[i].id == steps[j].opId
    ensures i == j
  {
    var a := Locate(ops, steps, expansion, i);
    var b := Locate(ops, steps, expansion, j);
    StepIdsDistinct(ops, steps, expansion);
    assert steps[i].opId == ops[b].id;
    assert a == b;
    StepIdSlash(ops[a], expansion[a].steps, i - Offset(expansion, a));
  }

  lemma {:induction false} CompiledOwnIds(plan: Plan, library: Library)
    requires ValidPlan(plan) && Compiled(plan, library).Success?
    ensures OwnIds(Compiled(plan, library).value.steps)
    ensures forall i, a | 0 <= i < |Compiled(plan, library).value.steps| && 0 <= a < |plan.ops| ::
              var step := Compiled(plan, library).value.steps[i]; step.id == plan.ops[a].id ==> step.opId == step.id
  {
    CompiledShape(plan, library);
    var program := Compiled(plan, library).value;
    StepIdsDistinct(plan.ops, program.steps, program.expansion);
    forall i, j | 0 <= i < |program.steps| && 0 <= j < |program.steps| && program.steps[i].id == program.steps[j].opId
      ensures i == j
    {
      IdIsOnlyStep(plan.ops, program.steps, program.expansion, i, j);
    }
  }

  lemma {:induction false} StepBound(program: Program, results: seq<StepResult>, k: nat)
    requires |results| <= |program.steps| && OwnIds(program.steps) && k < |program.steps|
    requires forall i | 0 <= i < |results| :: results[i].index == i
    ensures program.steps[k].id in Bindings(program, results) <==> k < |results| && !results[k].unresolved
    ensures k < |results| && !results[k].unresolved ==>
              Bindings(program, results)[program.steps[k].id] == results[k].output
    decreases |results|
  {
    if results != [] {
      var n := |results| - 1;
      assert forall i | 0 <= i < n :: results[..n][i] == results[i];
      StepBound(program, results[..n], k);
      assert program.steps[k].id == program.steps[n].id ==> k == n;
      assert program.steps[k].id == program.steps[n].opId ==> k == n;
    }
  }

  lemma {:induction false} OnlyAddressed(program: Program, results: seq<StepResult>, x: string)
    requires |results| <= |program.steps| && x in Bindings(program, results)
    requires forall i | 0 <= i < |results| :: results[i].index == i
    ensures exists k | 0 <= k < |results| ::
              !results[k].unresolved && (program.steps[k].id == x || program.steps[k].opId == x)
    decreases |results|
  {
    var n := |results| - 1;
    assert forall i | 0 <= i < n :: results[..n][i] == results[i];
    if !results[n].unresolved && (program.steps[n].id == x || program.steps[n].opId == x) {
    } else {
      OnlyAddressed(program, results[..n], x);
      var k :| 0 <= k < n && !results[..n][k].unresolved && (program.steps[k].id == x || program.steps[k].opId == x);
      assert !results[k].unresolved;
    }
  }

  /** Over every run of a compiled plan: a step's id names that step's own output, exactly once the
      step is recorded; an operation's id names the output of its last recorded step; and no other
      address names anything. */
  lemma {:induction false} EveryOutputHasItsNames(plan: Plan, library: Library, events: seq<Event>)
    requires ValidPlan(plan) && Compiled(plan, library).Success?
    ensures var program := Compiled(plan, library).value; var run := RunAll(program, events);
            && run.program == program
            && (forall k | 0 <= k < |program.steps| :: StepNamesOwn(run, k))
            && (forall a | 0 <= a < |plan.ops| :: OpNamesLast(run, plan.ops[a].id))
            && forall x | x in run.outputs :: Addresses(run, x)
  {
    hide ValidPlan, Compiled, RunAll, OwnIds, Bindings, HaltsOnFailure, Explained, PendingMatches;
    var program := Compiled(plan, library).value;
    var run := RunAll(program, events);
    EveryRunIsValid(program, events);
    CompiledOwnIds(plan, library);
    forall k | 0 <= k < |program.steps| ensures StepNamesOwn(run, k) {
      StepBound(program, run.results, k);
    }
    forall a | 0 <= a < |plan.ops| ensures OpNamesLast(run, plan.ops[a].id) {
      OperationNamesLastStep(program, run.results, plan.ops[a].id);
      SameLast(run, plan.ops[a].id);
    }
    forall x | x in run.outputs ensures Addresses(run, x) {
      OnlyAddressed(program, run.results, x);
      var k :| 0 <= k < |run.results| && !run.results[k].unresolved &&
          (program.steps[k].id == x || program.steps[k].opId == x);
      assert Recorded(run, k);
    }
  }

  lemma {:induction false} SameLast(run: Run, opId: string)
    requires |run.results| <= |run.program.steps|
    ensures forall k: nat :: LastOf(run, k, opId) <==> LastRecorded(run.program, run.results, k, opId)
  {
  }
}
