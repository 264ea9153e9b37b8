/** The shape of a compiled program: contiguous operations, unique step ids. */
module Layout {
  import opened Wrappers
  import opened Text
  import opened Refs
  import opened Plans
  import opened Programs
  import opened Compiler

  /** How many steps the first `a` operations produced. */
  function Offset(expansion: seq<Expansion>, a: nat): nat
    requires a <= |expansion|
  {
    if a == 0 then 0 else Offset(expansion, a - 1) + expansion[a - 1].steps
  }

  /** The steps of one operation, contiguous from `start`, each under the id it was given. */
  ghost predicate Block(op: Op, steps: seq<Step>, entry: Expansion, start: nat) {
    && entry.opId == op.id && entry.op == op.op && start + entry.steps <= |steps|
    && forall i | start <= i < start + entry.steps ::
         && steps[i].opId == op.id && steps[i].op == op.op
         && steps[i].id == StepId(op, entry.steps, i - start)
  }

  /** One block per operation, in plan order, covering every step. */
  ghost predicate LaidOut(ops: seq<Op>, steps: seq<Step>, expansion: seq<Expansion>) {
    && |expansion| == |ops|
    && Offset(expansion, |ops|) == |steps|
    && forall a | 0 <= a < |ops| :: Block(ops[a], steps, expansion[a], Offset(expansion, a))
  }

  lemma {:induction false} OffsetPrefix(short: seq<Expansion>, long: seq<Expansion>, a: nat)
    requires a <= |short| <= |long| && short == long[..|short|]
    ensures Offset(short, a) == Offset(long, a)
  {
    if a > 0 {
      OffsetPrefix(short, long, a - 1);
    }
  }

  lemma {:induction false} OffsetMonotone(expansion: seq<Expansion>, a: nat, b: nat)
    requires a <= b <= |expansion|
    ensures Offset(expansion, a) <= Offset(expansion, b)
    ensures a < b ==> Offset(expansion, a) + expansion[a].steps <= Offset(expansion, b)
    decreases b
  {
    if a < b {
      OffsetMonotone(expansion, a, b - 1);
    }
  }

  lemma {:induction false} CountAppend(front: seq<Step>, back: seq<Step>, opId: string)
    ensures CountOf(front + back, opId) == CountOf(front, opId) + CountOf(back, opId)
  {
    if front == [] {
      assert front + back == back;
    } else {
      assert (front + back)[1..] == front[1..] + back;
      CountAppend(front[1..], back, opId);
    }
  }

  lemma {:induction false} CountAll(steps: seq<Step>, opId: string)
    ensures (forall i | 0 <= i < |steps| :: steps[i].opId == opId) ==> CountOf(steps, opId) == |steps|
    ensures (forall i | 0 <= i < |steps| :: steps[i].opId != opId) ==> CountOf(steps, opId) == 0
  {
    if steps != [] {
      CountAll(steps[1..], opId);
    }
  }

  lemma {:induction false} FindBlock(expansion: seq<Expansion>, n: nat, i: nat) returns (a: nat)
    requires n <= |expansion| && i < Offset(expansion, n)
    ensures a < n && Offset(expansion, a) <= i < Offset(expansion, a) + expansion[a].steps
  {
    if Offset(expansion, n - 1) <= i {
      a := n - 1;
    } else {
      a := FindBlock(expansion, n - 1, i);
    }
  }

  /** Where index `i` of a laid-out program belongs. */
  lemma {:induction false} Locate(ops: seq<Op>, steps: seq<Step>, expansion: seq<Expansion>, i: nat) returns (a: nat)
    requires LaidOut(ops, steps, expansion) && i < |steps|
    ensures a < |ops| && Offset(expansion, a) <= i < Offset(expansion, a) + expansion[a].steps
    ensures steps[i].opId == ops[a].id && steps[i].id == StepId(ops[a], expansion[a].steps, i - Offset(expansion, a))
  {
    a := FindBlock(expansion, |ops|, i);
    assert Block(ops[a], steps, expansion[a], Offset(expansion, a));
  }

  lemma {:induction false} CountFresh(plan: Plan, k: nat, done: Expanded, specs: seq<StepSpec>)
    requires ValidPlan(plan) && k < |plan.ops|
    requires LaidOut(plan.ops[..k], done.steps, done.expansion)
    ensures CountOf(done.steps + StepsOf(plan.ops[k], specs), plan.ops[k].id) == |specs|
  {
    var op := plan.ops[k];
    var added := StepsOf(op, specs);
    forall i | 0 <= i < |done.steps|
      ensures done.steps[i].opId != op.id
    {
      var a := Locate(plan.ops[..k], done.steps, done.expansion, i);
      assert plan.ops[..k][a] == plan.ops[a];
    }
    CountAppend(done.steps, added, op.id);
    CountAll(done.steps, op.id);
    CountAll(added, op.id);
  }

  lemma {:induction false} BlockStays(op: Op, steps: seq<Step>, more: seq<Step>, entry: Expansion, start: nat)
    requires Block(op, steps, entry, start)
    ensures Block(op, steps + more, entry, start)
  {
    assert forall i | 0 <= i < |steps| :: (steps + more)[i] == steps[i];
  }

  lemma {:induction false} NewBlock(op: Op, steps: seq<Step>, specs: seq<StepSpec>)
    ensures Block(op, steps + StepsOf(op, specs), Expansion(op.id, op.op, |specs|), |steps|)
  {
    var added := StepsOf(op, specs);
    assert forall i | |steps| <= i < |steps| + |specs| :: (steps + added)[i] == added[i - |steps|];
  }

  lemma {:induction false} OffsetsGrow(expansion: seq<Expansion>, entry: Expansion)
    ensures Offset(expansion + [entry], |expansion|) == Offset(expansion, |expansion|)
    ensures Offset(expansion + [entry], |expansion| + 1) == Offset(expansion, |expansion|) + entry.steps
  {
    assert (expansion + [entry])[..|expansion|] == expansion;
    OffsetPrefix(expansion, expansion + [entry], |expansion|);
  }

  lemma {:induction false} GrownBlock(ops: seq<Op>, steps: seq<Step>, expansion: seq<Expansion>,
                                      op: Op, added: seq<Step>, entry: Expansion, a: nat)
    requires LaidOut(ops, steps, expansion) && a <= |ops|
    requires entry.steps == |added| && Block(op, steps + added, entry, |steps|)
    ensures Block((ops + [op])[a], steps + added, (expansion + [entry])[a], Offset(expansion + [entry], a))
  {
    OffsetsGrow(expansion, entry);
    if a < |ops| {
      assert (expansion + [entry])[..|expansion|] == expansion;
      OffsetPrefix(expansion, expansion + [entry], a);
      BlockStays(ops[a], steps, added, expansion[a], Offset(expansion, a));
    }
  }

  lemma {:induction false} LayoutGrows(ops: seq<Op>, steps: seq<Step>, expansion: seq<Expansion>,
                                       op: Op, added: seq<Step>, entry: Expansion)
    requires LaidOut(ops, steps, expansion)
    requires entry.steps == |added| && Block(op, steps + added, entry, |steps|)
    ensures LaidOut(ops + [op], steps + added, expansion + [entry])
  {
    OffsetsGrow(expansion, entry);
    forall a | 0 <= a < |ops + [op]|
      ensures Block((ops + [op])[a], steps + added, (expansion + [entry])[a], Offset(expansion + [entry], a))
    {
      GrownBlock(ops, steps, expansion, op, added, entry, a);
    }
  }

  lemma {:induction false} ExpandOneLayout(plan: Plan, library: Library, k: nat, done: Expanded)
    requires ValidPlan(plan) && k < |plan.ops|
    requires LaidOut(plan.ops[..k], done.steps, done.expansion)
    requires ExpandOne(plan.ops[k], plan.defaults, library, done).Success?
    ensures var next := ExpandOne(plan.ops[k], plan.defaults, library, done).value;
            LaidOut(plan.ops[..k + 1], next.steps, next.expansion)
  {
    var op := plan.ops[k];
    var specs := library(Effective(op, plan.defaults)).value;
    CountFresh(plan, k, done, specs);
    NewBlock(op, done.steps, specs);
    LayoutGrows(plan.ops[..k], done.steps, done.expansion, op, StepsOf(op, specs), Expansion(op.id, op.op, |specs|));
    TakeOneMore(plan.ops, k);
  }

  lemma {:induction false} ExpandedLayout(plan: Plan, library: Library, k: nat, done: Expanded)
    requires ValidPlan(plan) && k <= |plan.ops|
    requires LaidOut(plan.ops[..k], done.steps, done.expansion)
    requires ExpandFrom(plan, library, k, done).Success?
    ensures var out := ExpandFrom(plan, library, k, done).value; LaidOut(plan.ops, out.steps, out.expansion)
    decreases |plan.ops| - k
  {
    if k == |plan.ops| {
      assert plan.ops[..k] == plan.ops;
    } else {
      ExpandOneLayout(plan, library, k, done);
      ExpandedLayout(plan, library, k + 1, ExpandOne(plan.ops[k], plan.defaults, library, done).value);
    }
  }

  /** Two lists of steps that differ at most in their arguments. */
  ghost predicate SameShape(a: seq<Step>, b: seq<Step>) {
    && |a| == |b|
    && forall i | 0 <= i < |a| ::
         a[i].id == b[i].id && a[i].opId == b[i].opId && a[i].op == b[i].op && a[i].tool == b[i].tool
  }

  lemma {:induction false} RewriteStepsShape(names: Names, opIndex: nat, op: Op, steps: seq<Step>)
    requires opIndex <= |names.byPosition|
    requires RewriteSteps(names, opIndex, op, steps).Success?
    ensures var out := RewriteSteps(names, opIndex, op, steps).value;
            && SameShape(steps, out)
            && forall i | 0 <= i < |steps| ::
                 if steps[i].opId == op.id
                 then RewriteArgs(names, opIndex, op, steps[i].args) == Success(out[i].args)
                 else out[i] == steps[i]
  {
    if steps != [] {
      RewriteStepsShape(names, opIndex, op, steps[1..]);
      var out := RewriteSteps(names, opIndex, op, steps).value;
      assert out[1..] == RewriteSteps(names, opIndex, op, steps[1..]).value;
      assert forall i | 0 < i < |steps| :: steps[i] == steps[1..][i - 1] && out[i] == out[1..][i - 1];
    }
  }

  /** Each step's arguments are rewritten once, by the resolver of the operation it belongs to. */
  lemma {:induction false} RewriteFromArgs(names: Names, ops: seq<Op>, opIndex: nat, steps: seq<Step>)
    requires opIndex <= |ops| <= |names.byPosition| && DistinctIds(ops)
    requires RewriteFrom(names, ops, opIndex, steps).Success?
    ensures var out := RewriteFrom(names, ops, opIndex, steps).value;
            && SameShape(steps, out)
            && (forall i, a | 0 <= i < |steps| && opIndex <= a < |ops| && steps[i].opId == ops[a].id ::
                  RewriteArgs(names, a, ops[a], steps[i].args) == Success(out[i].args))
            && (forall i | 0 <= i < |steps| ::
                  (forall a | opIndex <= a < |ops| :: steps[i].opId != ops[a].id) ==> out[i] == steps[i])
    decreases |ops| - opIndex
  {
    if opIndex < |ops| {
      var next := RewriteSteps(names, opIndex, ops[opIndex], steps).value;
      RewriteStepsShape(names, opIndex, ops[opIndex], steps);
      RewriteFromArgs(names, ops, opIndex + 1, next);
      var out := RewriteFrom(names, ops, opIndex, steps).value;
      forall i, a | 0 <= i < |steps| && opIndex <= a < |ops| && steps[i].opId == ops[a].id
        ensures RewriteArgs(names, a, ops[a], steps[i].args) == Success(out[i].args)
      {
        if a == opIndex {
          assert forall b | opIndex + 1 <= b < |ops| :: ops[a].id != ops[b].id;
          assert next[i].opId == steps[i].opId;
          assert out[i] == next[i];
        } else {
          assert ops[opIndex].id != ops[a].id;
          assert next[i] == steps[i];
        }
      }
    }
  }

  // ----- what the reference check leaves true -----

  /** `x` is the id of an operation before `a`, or of one of such an operation's steps. */
  ghost predicate Earlier(ops: seq<Op>, steps: seq<Step>, a: nat, x: string)
    requires a <= |ops|
  {
    exists b | 0 <= b < a :: x == ops[b].id || StepUnder(steps, ops[b].id, x)
  }

  ghost predicate StepUnder(steps: seq<Step>, opId: string, x: string) {
    exists i | 0 <= i < |steps| :: steps[i].opId == opId && steps[i].id == x
  }

  lemma {:induction false} IdsUnderHolds(steps: seq<Step>, opId: string, x: string)
    ensures x in IdsUnder(steps, opId) <==> StepUnder(steps, opId, x)
  {
    if steps != [] {
      IdsUnderHolds(steps[1..], opId, x);
      if StepUnder(steps[1..], opId, x) {
        var i :| 0 <= i < |steps[1..]| && steps[1..][i].opId == opId && steps[1..][i].id == x;
        assert steps[i + 1].opId == opId;
      }
      if StepUnder(steps, opId, x) && !(steps[0].opId == opId && steps[0].id == x) {
        var i :| 0 <= i < |steps| && steps[i].opId == opId && steps[i].id == x;
        assert steps[1..][i - 1].opId == opId;
      }
    }
  }

  lemma {:induction false} CheckedRefs(
      found: seq<Reference>, available: seq<string>, universe: seq<string>, opId: string)
    ensures CheckRefs(found, available, universe, opId).None? <==> forall r | r in found :: r.op in available
  {
    if found != [] {
      CheckedRefs(found[1..], available, universe, opId);
      assert found[0] in found;
      assert forall r | r in found :: r == found[0] || r in found[1..];
      assert forall r | r in found[1..] :: r in found;
    }
  }

  ghost predicate StepChecked(step: Step, available: seq<string>) {
    Scan(step.args).Success? && forall r | r in Scan(step.args).value :: r.op in available
  }

  lemma {:induction false} CheckedSteps(steps: seq<Step>, available: seq<string>, universe: seq<string>, opId: string)
    ensures CheckSteps(steps, available, universe, opId).None? <==>
            forall i | 0 <= i < |steps| && steps[i].opId == opId :: StepChecked(steps[i], available)
  {
    if steps != [] {
      CheckedSteps(steps[1..], available, universe, opId);
      if Scan(steps[0].args).Success? {
        CheckedRefs(Scan(steps[0].args).value, available, universe, opId);
      }
      assert (forall i | 0 <= i < |steps| && steps[i].opId == opId :: StepChecked(steps[i], available)) <==>
             (steps[0].opId == opId ==> StepChecked(steps[0], available)) &&
             forall i | 0 <= i < |steps[1..]| && steps[1..][i].opId == opId :: StepChecked(steps[1..][i], available);
    }
  }

  /** `available` lists exactly what is earlier than operation `k`. */
  ghost predicate ListsEarlier(ops: seq<Op>, steps: seq<Step>, k: nat, available: seq<string>)
    requires k <= |ops|
  {
    forall x :: x in available <==> Earlier(ops, steps, k, x)
  }

  lemma {:induction false} EarlierGrows(ops: seq<Op>, steps: seq<Step>, k: nat, available: seq<string>)
    requires k < |ops| && ListsEarlier(ops, steps, k, available)
    ensures ListsEarlier(ops, steps, k + 1, available + [ops[k].id] + IdsUnder(steps, ops[k].id))
  {
    forall x: string
      ensures x in available + [ops[k].id] + IdsUnder(steps, ops[k].id) <==> Earlier(ops, steps, k + 1, x)
    {
      IdsUnderHolds(steps, ops[k].id, x);
      if Earlier(ops, steps, k, x) {
        var b :| 0 <= b < k && (x == ops[b].id || StepUnder(steps, ops[b].id, x));
        assert b < k + 1;
      }
      assert x == ops[k].id || StepUnder(steps, ops[k].id, x) ==> Earlier(ops, steps, k + 1, x);
      assert Earlier(ops, steps, k + 1, x) ==>
          Earlier(ops, steps, k, x) || x == ops[k].id || StepUnder(steps, ops[k].id, x);
    }
  }

  /** The check passes exactly when every step's references parse and name something earlier. */
  lemma {:induction false} CheckedFrom(
      ops: seq<Op>, k: nat, steps: seq<Step>, available: seq<string>, universe: seq<string>)
    requires k <= |ops| && ListsEarlier(ops, steps, k, available)
    ensures CheckFrom(ops, k, steps, available, universe).None? <==>
            forall a, i | k <= a < |ops| && 0 <= i < |steps| && steps[i].opId == ops[a].id ::
              && Scan(steps[i].args).Success?
              && forall r | r in Scan(steps[i].args).value :: Earlier(ops, steps, a, r.op)
    decreases |ops| - k
  {
    if k < |ops| {
      CheckedSteps(steps, available, universe, ops[k].id);
      EarlierGrows(ops, steps, k, available);
      CheckedFrom(ops, k + 1, steps, available + [ops[k].id] + IdsUnder(steps, ops[k].id), universe);
    }
  }

  lemma {:induction false} SameShapeLaidOut(ops: seq<Op>, a: seq<Step>, b: seq<Step>, expansion: seq<Expansion>)
    requires LaidOut(ops, a, expansion) && SameShape(a, b)
    ensures LaidOut(ops, b, expansion)
  {
    forall k | 0 <= k < |ops|
      ensures Block(ops[k], b, expansion[k], Offset(expansion, k))
    {
      assert Block(ops[k], a, expansion[k], Offset(expansion, k));
    }
  }

  /** The program a valid plan compiles to: laid out in plan order, with every reference naming an
      operation, or a step of one, strictly before the operation it was written in. */
  lemma {:induction false} CompiledShape(plan: Plan, library: Library)
    requires ValidPlan(plan) && Compiled(plan, library).Success?
    ensures var program := Compiled(plan, library).value;
            && program.policy == plan.policy
            && LaidOut(plan.ops, program.steps, program.expansion)
            && forall a, i | 0 <= a < |plan.ops| && 0 <= i < |program.steps| &&
                 program.steps[i].opId == plan.ops[a].id ::
                 && Scan(program.steps[i].args).Success?
                 && forall r | r in Scan(program.steps[i].args).value :: Earlier(plan.ops, program.steps, a, r.op)
  {
    var expanded := ExpandFrom(plan, library, 0, Expanded([], [])).value;
    ExpandedLayout(plan, library, 0, Expanded([], []));
    var names := NamesOf(plan.ops, expanded.steps);
    RewriteFromArgs(names, plan.ops, 0, expanded.steps);
    var program := Compiled(plan, library).value;
    SameShapeLaidOut(plan.ops, expanded.steps, program.steps, program.expansion);
    assert ListsEarlier(plan.ops, program.steps, 0, []);
    CheckedFrom(plan.ops, 0, program.steps, [], names.universe);
  }

  // ----- ids -----

  lemma {:induction false} StepIdSlash(op: Op, count: nat, index: nat)
    requires IsValidOpId(op.id)
    ensures '/' !in op.id
    ensures '/' in StepId(op, count, index) <==> count > 1
    ensures count > 1 ==> Split(StepId(op, count, index), '/') == [op.id, Decimal(index)]
  {
    if count > 1 {
      var parts := [op.id, Decimal(index)];
      assert parts[1..] == [Decimal(index)];
      assert Join(parts, '/') == op.id + ['/'] + Decimal(index);
      assert '/' !in Decimal(index);
      SplitOfJoin(parts, '/');
    }
  }

  lemma {:induction false} IdsDiffer(ops: seq<Op>, steps: seq<Step>, expansion: seq<Expansion>, i: nat, j: nat)
    requires LaidOut(ops, steps, expansion) && DistinctIds(ops)
    requires forall a | 0 <= a < |ops| :: IsValidOpId(ops[a].id)
    requires i < |steps| && j < |steps| && steps[i].id == steps[j].id
    ensures i == j
  {
    var a := Locate(ops, steps, expansion, i);
    var b := Locate(ops, steps, expansion, j);
    var m, n := i - Offset(expansion, a), j - Offset(expansion, b);
    StepIdSlash(ops[a], expansion[a].steps, m);
    StepIdSlash(ops[b], expansion[b].steps, n);
    assert expansion[a].steps > 1 <==> expansion[b].steps > 1;
    assert ops[a].id == ops[b].id;
    assert a == b;
    if expansion[a].steps > 1 {
      assert Split(steps[i].id, '/')[1] == Split(steps[j].id, '/')[1];
      DecimalInjective(m, n);
    }
  }

  /** No two steps of a program compiled from a valid plan share an id, and a step's id reads as an
      operation's id only when it is that operation's one step. */
  lemma {:induction false} StepIdsDistinct(ops: seq<Op>, steps: seq<Step>, expansion: seq<Expansion>)
    requires LaidOut(ops, steps, expansion) && DistinctIds(ops)
    requires forall a | 0 <= a < |ops| :: IsValidOpId(ops[a].id)
    ensures forall i, j | 0 <= i < j < |steps| :: steps[i].id != steps[j].id
    ensures forall i, a | 0 <= i < |steps| && 0 <= a < |ops| :: steps[i].id == ops[a].id ==> steps[i].opId == ops[a].id
  {
    forall i, j | 0 <= i < |steps| && 0 <= j < |steps| && steps[i].id == steps[j].id
      ensures i == j
    {
      IdsDiffer(ops, steps, expansion, i, j);
    }
    forall i, a | 0 <= i < |steps| && 0 <= a < |ops| && steps[i].id == ops[a].id
      ensures steps[i].opId == ops[a].id
    {
      var b := Locate(ops, steps, expansion, i);
      StepIdSlash(ops[b], expansion[b].steps, i - Offset(expansion, b));
      StepIdSlash(ops[a], 1, 0);
    }
  }
}
