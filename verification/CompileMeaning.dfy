/** What compiling a plan comes to, told from the library's answers to filled-in operations. */
module CompileMeaning {
  import opened Wrappers
  import opened Text
  import opened Json
  import opened Refs
  import opened Plans
  import opened Programs
  import opened Compiler
  import opened Layout

  // ----- an operation's parameters, filled in from the plan's defaults -----

  ghost predicate KeyOrdered(fields: seq<Field>) {
    forall i, j | 0 <= i < j < |fields| :: Less(fields[i].name, fields[j].name)
  }

  /** `filled` holds what the operation gave, and a default under each name it left out. */
  ghost predicate FilledIn(given: seq<Field>, defaults: seq<Field>, filled: seq<Field>) {
    && (forall name :: Get(filled, name) == if Get(given, name).Some? then Get(given, name) else Get(defaults, name))
    && (KeyOrdered(given) ==> KeyOrdered(filled))
  }

  lemma {:induction false} InsertOrdered(fields: seq<Field>, name: string, value: Json)
    requires KeyOrdered(fields)
    ensures KeyOrdered(Insert(fields, name, value))
    ensures forall f | f in Insert(fields, name, value) :: f == Field(name, value) || f in fields
  {
    if fields != [] {
      var out := Insert(fields, name, value);
      if fields[0].name == name {
        assert forall i | 0 < i < |fields| :: Less(fields[0].name, fields[i].name);
      } else if Less(name, fields[0].name) {
        forall i | 0 < i < |fields| ensures Less(name, fields[i].name) {
          LessTransitive(name, fields[0].name, fields[i].name);
        }
      } else {
        LessTotal(name, fields[0].name);
        InsertOrdered(fields[1..], name, value);
        var rest := Insert(fields[1..], name, value);
        forall i | 0 <= i < |rest| ensures Less(fields[0].name, rest[i].name) {
          assert rest[i] in rest;
          if rest[i] != Field(name, value) {
            var j :| 0 <= j < |fields[1..]| && fields[1..][j] == rest[i];
            assert fields[j + 1] == rest[i];
          }
        }
      }
    }
  }

  lemma {:induction false} MergeOrdered(existing: seq<Field>, defaults: seq<Field>)
    requires KeyOrdered(existing)
    ensures KeyOrdered(Merge(existing, defaults))
    decreases |defaults|
  {
    if defaults != [] {
      InsertOrdered(existing, defaults[0].name, defaults[0].value);
      var next := if Get(existing, defaults[0].name).Some? then existing
                  else Insert(existing, defaults[0].name, defaults[0].value);
      MergeOrdered(next, defaults[1..]);
    }
  }

  lemma {:induction false} BelowIsAbsent(fields: seq<Field>, name: string)
    requires KeyOrdered(fields) && forall i | 0 <= i < |fields| :: Less(name, fields[i].name)
    ensures Get(fields, name) == None
  {
    if fields != [] {
      LessIrreflexive(name);
      BelowIsAbsent(fields[1..], name);
    }
  }

  /** An object is its fields by name: listed in key order they can be listed in one way only, so an
      operation whose parameters are in key order can be filled in in one way only. */
  lemma {:induction false} OneListing(a: seq<Field>, b: seq<Field>)
    requires KeyOrdered(a) && KeyOrdered(b) && forall name :: Get(a, name) == Get(b, name)
    ensures a == b
  {
    if a == [] {
      assert b != [] ==> Get(a, b[0].name) == Get(b, b[0].name);
    } else {
      assert Get(b, a[0].name) == Some(a[0].value);
      assert b != [];
      assert Get(a, b[0].name) == Some(b[0].value);
      NotBelow(a, b);
      NotBelow(b, a);
      LessTotal(a[0].name, b[0].name);
      assert a[0] == b[0];
      BelowIsAbsent(a[1..], a[0].name);
      BelowIsAbsent(b[1..], a[0].name);
      forall name ensures Get(a[1..], name) == Get(b[1..], name) {
        assert Get(a, name) == Get(b, name);
      }
      OneListing(a[1..], b[1..]);
      assert a == [a[0]] + a[1..] && b == [b[0]] + b[1..];
    }
  }

  lemma {:induction false} NotBelow(a: seq<Field>, b: seq<Field>)
    requires KeyOrdered(b) && a != [] && b != [] && Get(b, a[0].name).Some?
    ensures !Less(a[0].name, b[0].name)
  {
    if Less(a[0].name, b[0].name) {
      forall i | 0 < i < |b| ensures Less(a[0].name, b[i].name) {
        LessTransitive(a[0].name, b[0].name, b[i].name);
      }
      BelowIsAbsent(b, a[0].name);
    }
  }

  lemma {:induction false} DefaultsFilledIn(with: Json, defaults: seq<Field>)
    requires with.Obj?
    ensures WithDefaults(with, defaults).Obj? && FilledIn(with.fields, defaults, WithDefaults(with, defaults).fields)
  {
    forall name
      ensures Get(WithDefaults(with, defaults).fields, name) ==
              if Get(with.fields, name).Some? then Get(with.fields, name) else Get(defaults, name)
    {
      DefaultsFill(with.fields, defaults, name);
    }
    if KeyOrdered(with.fields) {
      MergeOrdered(with.fields, defaults);
    }
  }

  /** One filled-in parameter object for each operation of the plan. */
  ghost predicate Fills(plan: Plan, fills: seq<seq<Field>>) {
    && |fills| == |plan.ops|
    && forall a | 0 <= a < |plan.ops| ::
         plan.ops[a].with.Obj? && FilledIn(plan.ops[a].with.fields, plan.defaults, fills[a])
  }

  ghost function DefaultFills(plan: Plan): (fills: seq<seq<Field>>)
    requires ValidPlan(plan)
    ensures Fills(plan, fills)
    ensures forall a | 0 <= a < |fills| :: Obj(fills[a]) == WithDefaults(plan.ops[a].with, plan.defaults)
  {
    var fills := seq(|plan.ops|, a requires 0 <= a < |plan.ops| =>
      DefaultsFilledIn(plan.ops[a].with, plan.defaults); WithDefaults(plan.ops[a].with, plan.defaults).fields);
    assert forall a | 0 <= a < |plan.ops| :: FilledIn(plan.ops[a].with.fields, plan.defaults, fills[a]) by {
      forall a | 0 <= a < |plan.ops| ensures FilledIn(plan.ops[a].with.fields, plan.defaults, fills[a]) {
        DefaultsFilledIn(plan.ops[a].with, plan.defaults);
      }
    }
    fills
  }

  // ----- the library's answers, and the steps they become -----

  /** What the library says to operation `a` with its parameters filled in. */
  ghost function Says(plan: Plan, library: Library, fills: seq<seq<Field>>, a: nat)
    : Result<seq<StepSpec>, ExpandError>
    requires a < |fills| == |plan.ops|
  {
    library(Op(plan.ops[a].id, plan.ops[a].op, Obj(fills[a])))
  }

  /** Call `i` of those an operation came to: an only call goes by the operation's id, the others
      are numbered from zero after a slash. */
  ghost predicate IsCall(op: Op, specs: seq<StepSpec>, i: nat, step: Step) {
    && i < |specs|
    && step.id == (if |specs| == 1 then op.id else op.id + "/" + Decimal(i))
    && step.opId == op.id && step.op == op.op && step.tool == specs[i].tool
  }

  /** The steps from `start` on are the calls the library answered with. */
  ghost predicate Told(op: Op, answer: Result<seq<StepSpec>, ExpandError>, steps: seq<Step>, entry: Expansion,
                       start: nat) {
    && answer.Success? && entry == Expansion(op.id, op.op, |answer.value|) && start + |answer.value| <= |steps|
    && forall i | start <= i < start + |answer.value| ::
         IsCall(op, answer.value, i - start, steps[i]) && steps[i].args == answer.value[i - start].args
  }

  /** The first `k` operations told, one after the other. */
  ghost predicate AllTold(plan: Plan, library: Library, fills: seq<seq<Field>>, k: nat, done: Expanded)
    requires |fills| == |plan.ops|
  {
    && |done.expansion| == k <= |plan.ops| && Offset(done.expansion, k) == |done.steps|
    && forall a | 0 <= a < k ::
         Told(plan.ops[a], Says(plan, library, fills, a), done.steps, done.expansion[a], Offset(done.expansion, a))
  }

  /** The library refuses operation `a` with `error` and none before it. */
  ghost predicate RefusesFirst(plan: Plan, library: Library, fills: seq<seq<Field>>, a: nat, error: ExpandError)
    requires |fills| == |plan.ops|
  {
    && a < |plan.ops| && Says(plan, library, fills, a) == Failure(error)
    && forall b | 0 <= b < a :: Says(plan, library, fills, b).Success?
  }

  lemma {:induction false} ToldStays(op: Op, answer: Result<seq<StepSpec>, ExpandError>, steps: seq<Step>,
                                     more: seq<Step>, entry: Expansion, start: nat)
    requires Told(op, answer, steps, entry, start)
    ensures Told(op, answer, steps + more, entry, start)
  {
    assert forall i | 0 <= i < |steps| :: (steps + more)[i] == steps[i];
  }

  lemma {:induction false} NewTold(op: Op, specs: seq<StepSpec>, steps: seq<Step>)
    ensures Told(op, Success(specs), steps + StepsOf(op, specs), Expansion(op.id, op.op, |specs|), |steps|)
  {
    var added := StepsOf(op, specs);
    assert forall i | |steps| <= i < |steps| + |specs| :: (steps + added)[i] == added[i - |steps|];
  }

  lemma {:induction false} ToldLaidOut(plan: Plan, library: Library, fills: seq<seq<Field>>, k: nat, done: Expanded)
    requires |fills| == |plan.ops| && AllTold(plan, library, fills, k, done)
    ensures LaidOut(plan.ops[..k], done.steps, done.expansion)
  {
    forall a | 0 <= a < k
      ensures Block(plan.ops[..k][a], done.steps, done.expansion[a], Offset(done.expansion, a))
    {
      var answer := Says(plan, library, fills, a);
      assert Told(plan.ops[a], answer, done.steps, done.expansion[a], Offset(done.expansion, a));
    }
  }

  lemma {:induction false} ToldGrows(plan: Plan, library: Library, fills: seq<seq<Field>>, k: nat, done: Expanded,
                                     specs: seq<StepSpec>)
    requires |fills| == |plan.ops| && k < |plan.ops| && AllTold(plan, library, fills, k, done)
    requires Says(plan, library, fills, k) == Success(specs)
    ensures var op := plan.ops[k];
            AllTold(plan, library, fills, k + 1, Expanded(done.steps + StepsOf(op, specs),
                                                          done.expansion + [Expansion(op.id, op.op, |specs|)]))
  {
    hide Told, StepsOf, Offset;
    var op := plan.ops[k];
    var entry, added := Expansion(op.id, op.op, |specs|), StepsOf(op, specs);
    var grown := done.expansion + [entry];
    OffsetsGrow(done.expansion, entry);
    NewTold(op, specs, done.steps);
    forall a | 0 <= a < k
      ensures Told(plan.ops[a], Says(plan, library, fills, a), done.steps + added, grown[a], Offset(grown, a))
    {
      assert grown[..k] == done.expansion;
      OffsetPrefix(done.expansion, grown, a);
      ToldStays(plan.ops[a], Says(plan, library, fills, a), done.steps, added, done.expansion[a],
                Offset(done.expansion, a));
    }
  }

  lemma {:induction false} ExpandTells(plan: Plan, library: Library, k: nat, done: Expanded)
    requires ValidPlan(plan) && k <= |plan.ops|
    requires AllTold(plan, library, DefaultFills(plan), k, done)
    requires forall b | 0 <= b < k :: Says(plan, library, DefaultFills(plan), b).Success?
    ensures match ExpandFrom(plan, library, k, done)
            case Success(out) => AllTold(plan, library, DefaultFills(plan), |plan.ops|, out)
            case Failure(e) => exists a: nat, error ::
              && RefusesFirst(plan, library, DefaultFills(plan), a, error)
              && e == ExpansionFailed(plan.ops[a].id, plan.ops[a].op, error)
    decreases |plan.ops| - k
  {
    hide AllTold, LaidOut, ValidPlan, RefusesFirst;
    var fills := DefaultFills(plan);
    if k < |plan.ops| {
      var op := plan.ops[k];
      EffectiveSays(plan, library, k);
      match Says(plan, library, fills, k)
      case Failure(error) =>
        RefusedHere(plan, library, fills, k, error);
      case Success(specs) =>
        ToldLaidOut(plan, library, fills, k, done);
        CountFresh(plan, k, done, specs);
        ToldGrows(plan, library, fills, k, done, specs);
        var next := Expanded(done.steps + StepsOf(op, specs), done.expansion + [Expansion(op.id, op.op, |specs|)]);
        assert ExpandOne(op, plan.defaults, library, done) == Success(next);
        ExpandTells(plan, library, k + 1, next);
    }
  }

  lemma {:induction false} EffectiveSays(plan: Plan, library: Library, k: nat)
    requires ValidPlan(plan) && k < |plan.ops|
    ensures library(Effective(plan.ops[k], plan.defaults)) == Says(plan, library, DefaultFills(plan), k)
  {
    assert Obj(DefaultFills(plan)[k]) == WithDefaults(plan.ops[k].with, plan.defaults);
  }

  lemma {:induction false} RefusedHere(plan: Plan, library: Library, fills: seq<seq<Field>>, k: nat, error: ExpandError)
    requires |fills| == |plan.ops| && k < |plan.ops| && Says(plan, library, fills, k) == Failure(error)
    requires forall b | 0 <= b < k :: Says(plan, library, fills, b).Success?
    ensures RefusesFirst(plan, library, fills, k, error)
  {
  }

  // ----- the compiled program, described -----

  /** Operation `a` as the program holds it: its calls in order, their arguments rewritten for it. */
  ghost predicate Carried(plan: Plan, answer: Result<seq<StepSpec>, ExpandError>, steps: seq<Step>, entry: Expansion,
                          start: nat, a: nat)
    requires a < |plan.ops|
  {
    && answer.Success? && entry == Expansion(plan.ops[a].id, plan.ops[a].op, |answer.value|)
    && start + |answer.value| <= |steps|
    && forall i | start <= i < start + |answer.value| ::
         && IsCall(plan.ops[a], answer.value, i - start, steps[i])
         && RewriteArgs(NamesOf(plan.ops, steps), a, plan.ops[a], answer.value[i - start].args) ==
            Success(steps[i].args)
  }

  /** Every reference in the arguments of `step`, a step of operation `a`, names something earlier. */
  ghost predicate LooksBack(plan: Plan, steps: seq<Step>, a: nat, step: Step)
    requires a < |plan.ops|
  {
    Scan(step.args).Success? && forall r | r in Scan(step.args).value :: Earlier(plan.ops, steps, a, r.op)
  }

  ghost predicate AllCarried(plan: Plan, library: Library, fills: seq<seq<Field>>, steps: seq<Step>,
                             expansion: seq<Expansion>)
    requires |fills| == |plan.ops|
  {
    && |expansion| == |plan.ops| && Offset(expansion, |plan.ops|) == |steps|
    && forall a | 0 <= a < |plan.ops| ::
         Carried(plan, Says(plan, library, fills, a), steps, expansion[a], Offset(expansion, a), a)
  }

  ghost predicate AllLookBack(plan: Plan, steps: seq<Step>) {
    forall a, i | 0 <= a < |plan.ops| && 0 <= i < |steps| && steps[i].opId == plan.ops[a].id ::
      LooksBack(plan, steps, a, steps[i])
  }

  /** What a plan compiles to under the library's answers: every operation's calls in plan order,
      at least one of them, and nothing that refers to a later operation or to none. */
  ghost predicate Describes(plan: Plan, library: Library, fills: seq<seq<Field>>, program: Program)
    requires |fills| == |plan.ops|
  {
    && program.steps != []
    && AllCarried(plan, library, fills, program.steps, program.expansion)
    && AllLookBack(plan, program.steps)
    && program.planId == plan.planId && program.documents == plan.documents
    && program.baseRevisions == plan.baseRevisions && program.validators == plan.validators
    && program.constraints == plan.constraints && program.policy == plan.policy
  }

  lemma {:induction false} SameIds(plan: Plan, a: seq<Step>, b: seq<Step>)
    requires SameShape(a, b)
    ensures NamesOf(plan.ops, a) == NamesOf(plan.ops, b)
  {
    assert StepIds(a) == StepIds(b);
  }

  lemma {:induction false} CarriedFromTold(plan: Plan, library: Library, fills: seq<seq<Field>>, expanded: Expanded,
                                           steps: seq<Step>)
    requires |fills| == |plan.ops| && DistinctIds(plan.ops)
    requires AllTold(plan, library, fills, |plan.ops|, expanded)
    requires RewriteFrom(NamesOf(plan.ops, expanded.steps), plan.ops, 0, expanded.steps) == Success(steps)
    ensures SameShape(expanded.steps, steps)
    ensures AllCarried(plan, library, fills, steps, expanded.expansion)
  {
    var names := NamesOf(plan.ops, expanded.steps);
    RewriteFromArgs(names, plan.ops, 0, expanded.steps);
    SameIds(plan, expanded.steps, steps);
    forall a | 0 <= a < |plan.ops|
      ensures Carried(plan, Says(plan, library, fills, a), steps, expanded.expansion[a],
                      Offset(expanded.expansion, a), a)
    {
      CarriedOne(plan, Says(plan, library, fills, a), expanded.steps, steps, expanded.expansion[a],
                 Offset(expanded.expansion, a), a);
    }
  }

  lemma {:induction false} CarriedOne(plan: Plan, answer: Result<seq<StepSpec>, ExpandError>, told: seq<Step>,
                                      steps: seq<Step>, entry: Expansion, start: nat, a: nat)
    requires a < |plan.ops| && Told(plan.ops[a], answer, told, entry, start)
    requires SameShape(told, steps)
    requires forall i | 0 <= i < |told| && told[i].opId == plan.ops[a].id ::
               RewriteArgs(NamesOf(plan.ops, steps), a, plan.ops[a], told[i].args) == Success(steps[i].args)
    ensures Carried(plan, answer, steps, entry, start, a)
  {
    forall i | start <= i < start + |answer.value|
      ensures IsCall(plan.ops[a], answer.value, i - start, steps[i])
      ensures RewriteArgs(NamesOf(plan.ops, steps), a, plan.ops[a], answer.value[i - start].args) ==
              Success(steps[i].args)
    {
      assert IsCall(plan.ops[a], answer.value, i - start, told[i]);
    }
  }

  lemma {:induction false} CarriedLaidOut(plan: Plan, library: Library, fills: seq<seq<Field>>, steps: seq<Step>,
                                          expansion: seq<Expansion>)
    requires |fills| == |plan.ops| && AllCarried(plan, library, fills, steps, expansion)
    ensures LaidOut(plan.ops, steps, expansion)
  {
    forall a | 0 <= a < |plan.ops|
      ensures Block(plan.ops[a], steps, expansion[a], Offset(expansion, a))
    {
      CarriedBlock(plan, Says(plan, library, fills, a), steps, expansion[a], Offset(expansion, a), a);
    }
  }

  lemma {:induction false} CarriedBlock(plan: Plan, answer: Result<seq<StepSpec>, ExpandError>, steps: seq<Step>,
                                        entry: Expansion, start: nat, a: nat)
    requires a < |plan.ops| && Carried(plan, answer, steps, entry, start, a)
    ensures Block(plan.ops[a], steps, entry, start)
  {
    forall i | start <= i < start + entry.steps
      ensures steps[i].opId == plan.ops[a].id && steps[i].op == plan.ops[a].op
      ensures steps[i].id == StepId(plan.ops[a], entry.steps, i - start)
    {
      assert IsCall(plan.ops[a], answer.value, i - start, steps[i]);
    }
  }

  /** One operation's pass succeeds when each of its own steps can be rewritten. */
  lemma {:induction false} PassSucceeds(names: Names, opIndex: nat, op: Op, steps: seq<Step>)
    requires opIndex <= |names.byPosition|
    requires forall i | 0 <= i < |steps| && steps[i].opId == op.id ::
               RewriteArgs(names, opIndex, op, steps[i].args).Success?
    ensures RewriteSteps(names, opIndex, op, steps).Success?
  {
    if steps != [] {
      assert forall i | 0 <= i < |steps| - 1 :: steps[1..][i] == steps[i + 1];
      PassSucceeds(names, opIndex, op, steps[1..]);
    }
  }

  lemma {:induction false} RewriteSucceeds(names: Names, ops: seq<Op>, opIndex: nat, steps: seq<Step>)
    requires opIndex <= |ops| <= |names.byPosition| && DistinctIds(ops)
    requires forall i, a | 0 <= i < |steps| && opIndex <= a < |ops| && steps[i].opId == ops[a].id ::
               RewriteArgs(names, a, ops[a], steps[i].args).Success?
    ensures RewriteFrom(names, ops, opIndex, steps).Success?
    decreases |ops| - opIndex
  {
    if opIndex < |ops| {
      PassSucceeds(names, opIndex, ops[opIndex], steps);
      RewriteStepsShape(names, opIndex, ops[opIndex], steps);
      var next := RewriteSteps(names, opIndex, ops[opIndex], steps).value;
      forall i, a | 0 <= i < |next| && opIndex + 1 <= a < |ops| && next[i].opId == ops[a].id
        ensures RewriteArgs(names, a, ops[a], next[i].args).Success?
      {
        assert ops[opIndex].id != ops[a].id && next[i] == steps[i];
      }
      RewriteSucceeds(names, ops, opIndex + 1, next);
    }
  }

  lemma {:induction false} SameOffsets(a: seq<Expansion>, b: seq<Expansion>, k: nat)
    requires |a| == |b| && k <= |a| && forall i | 0 <= i < |a| :: a[i] == b[i]
    ensures Offset(a, k) == Offset(b, k)
  {
    assert a == b;
  }

  /** A described program is what rewriting the library's calls gives. */
  lemma {:induction false} CarriedIsRewritten(plan: Plan, library: Library, fills: seq<seq<Field>>, expanded: Expanded,
                                              steps: seq<Step>, expansion: seq<Expansion>)
    requires |fills| == |plan.ops| && DistinctIds(plan.ops)
    requires AllTold(plan, library, fills, |plan.ops|, expanded)
    requires AllCarried(plan, library, fills, steps, expansion)
    ensures expanded.expansion == expansion && SameShape(expanded.steps, steps)
    ensures RewriteFrom(NamesOf(plan.ops, expanded.steps), plan.ops, 0, expanded.steps) == Success(steps)
  {
    var told := expanded.steps;
    forall a | 0 <= a < |plan.ops| ensures expanded.expansion[a] == expansion[a] {
      var answer := Says(plan, library, fills, a);
      assert Told(plan.ops[a], answer, told, expanded.expansion[a], Offset(expanded.expansion, a));
      assert Carried(plan, answer, steps, expansion[a], Offset(expansion, a), a);
    }
    assert expanded.expansion == expansion;
    ToldLaidOut(plan, library, fills, |plan.ops|, expanded);
    assert plan.ops[..|plan.ops|] == plan.ops;
    forall i | 0 <= i < |told|
      ensures SameButArgs(told[i], steps[i])
      ensures forall a | 0 <= a < |plan.ops| && told[i].opId == plan.ops[a].id ::
                RewriteArgs(NamesOf(plan.ops, steps), a, plan.ops[a], told[i].args) == Success(steps[i].args)
    {
      var a := Locate(plan.ops, told, expansion, i);
      CarriedAt(plan, Says(plan, library, fills, a), told, steps, expansion[a], Offset(expansion, a), a, i);
    }
    assert SameShape(told, steps);
    SameIds(plan, told, steps);
    RewriteSucceeds(NamesOf(plan.ops, told), plan.ops, 0, told);
    RewrittenIs(plan, told, steps, expansion);
  }

  ghost predicate SameButArgs(a: Step, b: Step) {
    a.id == b.id && a.opId == b.opId && a.op == b.op && a.tool == b.tool
  }

  lemma {:induction false} CarriedAt(plan: Plan, answer: Result<seq<StepSpec>, ExpandError>, told: seq<Step>,
                                     steps: seq<Step>, entry: Expansion, start: nat, a: nat, i: nat)
    requires a < |plan.ops| && |told| == |steps| && start <= i < start + entry.steps
    requires Told(plan.ops[a], answer, told, entry, start) && Carried(plan, answer, steps, entry, start, a)
    ensures SameButArgs(told[i], steps[i]) && told[i].opId == plan.ops[a].id
    ensures RewriteArgs(NamesOf(plan.ops, steps), a, plan.ops[a], told[i].args) == Success(steps[i].args)
  {
    assert IsCall(plan.ops[a], answer.value, i - start, told[i]);
    assert IsCall(plan.ops[a], answer.value, i - start, steps[i]);
  }

  lemma {:induction false} RewrittenIs(plan: Plan, told: seq<Step>, steps: seq<Step>, expansion: seq<Expansion>)
    requires DistinctIds(plan.ops) && LaidOut(plan.ops, told, expansion) && SameShape(told, steps)
    requires var names := NamesOf(plan.ops, told);
             && RewriteFrom(names, plan.ops, 0, told).Success?
             && forall i, a | 0 <= i < |told| && 0 <= a < |plan.ops| && told[i].opId == plan.ops[a].id ::
                  RewriteArgs(names, a, plan.ops[a], told[i].args) == Success(steps[i].args)
    ensures RewriteFrom(NamesOf(plan.ops, told), plan.ops, 0, told) == Success(steps)
  {
    var names := NamesOf(plan.ops, told);
    RewriteFromArgs(names, plan.ops, 0, told);
    var out := RewriteFrom(names, plan.ops, 0, told).value;
    forall i | 0 <= i < |told| ensures out[i] == steps[i] {
      var a := Locate(plan.ops, told, expansion, i);
      assert RewriteArgs(names, a, plan.ops[a], told[i].args) == Success(out[i].args);
      assert SameButArgs(told[i], out[i]) && SameButArgs(told[i], steps[i]);
    }
    assert out == steps;
  }

  lemma {:induction false} StartsTold(plan: Plan, library: Library)
    requires ValidPlan(plan)
    ensures match ExpandFrom(plan, library, 0, Expanded([], []))
            case Success(out) => AllTold(plan, library, DefaultFills(plan), |plan.ops|, out)
            case Failure(e) => exists a: nat, error ::
              && RefusesFirst(plan, library, DefaultFills(plan), a, error)
              && e == ExpansionFailed(plan.ops[a].id, plan.ops[a].op, error)
  {
    ExpandTells(plan, library, 0, Expanded([], []));
  }

  lemma {:induction false} PassesCheck(plan: Plan, steps: seq<Step>, universe: seq<string>)
    ensures CheckFrom(plan.ops, 0, steps, [], universe).None? <==> AllLookBack(plan, steps)
  {
    assert ListsEarlier(plan.ops, steps, 0, []);
    CheckedFrom(plan.ops, 0, steps, [], universe);
  }

  /** A plan compiles to a program exactly when the program is the one described: each operation,
      with the plan's defaults under the parameters it leaves out, asked of the library; the calls
      answered laid out in plan order under ids of their own, with the tools answered and the
      arguments answered, rewritten for the operation; and every reference naming something earlier. */
  lemma {:induction false} CompiledExactly(plan: Plan, library: Library, program: Program)
    requires ValidPlan(plan)
    ensures Fills(plan, DefaultFills(plan))
    ensures Compiled(plan, library) == Success(program) <==> Describes(plan, library, DefaultFills(plan), program)
  {
    hide AllTold, AllCarried, AllLookBack, ExpandFrom, RewriteFrom, CheckFrom, LaidOut, SameShape, RefusesFirst;
    var fills := DefaultFills(plan);
    StartsTold(plan, library);
    var expanded := ExpandFrom(plan, library, 0, Expanded([], []));
    if Compiled(plan, library).Success? {
      var steps := Compiled(plan, library).value.steps;
      CarriedFromTold(plan, library, fills, expanded.value, steps);
      PassesCheck(plan, steps, NamesOf(plan.ops, expanded.value.steps).universe);
      ShapeLength(expanded.value.steps, steps);
    }
    if Describes(plan, library, fills, program) {
      NoneRefuses(plan, library, fills, program.steps, program.expansion);
      assert expanded.Success?;
      CarriedIsRewritten(plan, library, fills, expanded.value, program.steps, program.expansion);
      PassesCheck(plan, program.steps, NamesOf(plan.ops, expanded.value.steps).universe);
      ShapeLength(expanded.value.steps, program.steps);
    }
  }

  lemma {:induction false} ShapeLength(a: seq<Step>, b: seq<Step>)
    requires SameShape(a, b)
    ensures a == [] <==> b == []
  {
  }

  lemma {:induction false} NoneRefuses(plan: Plan, library: Library, fills: seq<seq<Field>>, steps: seq<Step>,
                                       expansion: seq<Expansion>)
    requires |fills| == |plan.ops| && AllCarried(plan, library, fills, steps, expansion)
    ensures forall a: nat, error :: !RefusesFirst(plan, library, fills, a, error)
  {
    forall a: nat | a < |plan.ops| ensures Says(plan, library, fills, a).Success? {
      assert Carried(plan, Says(plan, library, fills, a), steps, expansion[a], Offset(expansion, a), a);
    }
  }

  // ----- what each refusal is true of -----

  /** `x` is the id of an operation or of a step. */
  ghost predicate Exists(plan: Plan, steps: seq<Step>, x: string) {
    (exists a | 0 <= a < |plan.ops| :: plan.ops[a].id == x) || exists i | 0 <= i < |steps| :: steps[i].id == x
  }

  /** Reference `r` of operation `a` names nothing at all, or something that is not earlier. */
  ghost predicate Misplaced(plan: Plan, steps: seq<Step>, a: nat, r: Reference, error: CompileError)
    requires a < |plan.ops|
  {
    && !Earlier(plan.ops, steps, a, r.op)
    && error == if Exists(plan, steps, r.op) then ForwardReference(plan.ops[a].id, Show(r), r.op)
                else UnknownReference(plan.ops[a].id, Show(r), r.op)
  }

  /** Step `i`, of operation `a`, holds a reference that does not parse or that is misplaced. */
  ghost predicate BadStep(plan: Plan, steps: seq<Step>, a: nat, i: nat, error: CompileError) {
    && a < |plan.ops| && i < |steps| && steps[i].opId == plan.ops[a].id
    && match Scan(steps[i].args)
       case Failure(e) => error == BadReference(plan.ops[a].id, e)
       case Success(found) => exists r :: r in found && Misplaced(plan, steps, a, r, error)
  }

  ghost predicate SomeBadStep(plan: Plan, steps: seq<Step>, error: CompileError) {
    exists a: nat, i: nat :: BadStep(plan, steps, a, i, error)
  }

  /** The arguments of call `i`, made by operation `a`, cannot be rewritten. */
  ghost predicate BadTarget(plan: Plan, told: seq<Step>, a: nat, i: nat, error: CompileError) {
    && a < |plan.ops| && i < |told| && told[i].opId == plan.ops[a].id
    && RewriteArgs(NamesOf(plan.ops, told), a, plan.ops[a], told[i].args) == Failure(error)
  }

  ghost predicate SomeBadTarget(plan: Plan, told: seq<Step>, error: CompileError) {
    exists a: nat, i: nat :: BadTarget(plan, told, a, i, error)
  }

  lemma {:induction false} UniverseHolds(plan: Plan, steps: seq<Step>, x: string)
    ensures x in NamesOf(plan.ops, steps).universe <==> Exists(plan, steps, x)
  {
    var ids, more := Ids(plan.ops), StepIds(steps);
    forall a | 0 <= a < |plan.ops| && plan.ops[a].id == x ensures x in ids {
      assert ids[a] == x;
    }
    forall i | 0 <= i < |steps| && steps[i].id == x ensures x in more {
      assert more[i] == x;
    }
    assert x in ids + more <==> x in ids || x in more;
  }

  lemma {:induction false} RefsError(found: seq<Reference>, available: seq<string>, universe: seq<string>, opId: string)
    requires CheckRefs(found, available, universe, opId).Some?
    ensures exists r :: r in found && r.op !in available &&
              CheckRefs(found, available, universe, opId).value ==
              if r.op in universe then ForwardReference(opId, Show(r), r.op)
              else UnknownReference(opId, Show(r), r.op)
  {
    assert found[0] in found;
    if found[0].op in available {
      RefsError(found[1..], available, universe, opId);
      assert forall r | r in found[1..] :: r in found;
    }
  }

  lemma {:induction false} StepsError(steps: seq<Step>, available: seq<string>, universe: seq<string>, opId: string)
    returns (i: nat)
    requires CheckSteps(steps, available, universe, opId).Some?
    ensures i < |steps| && steps[i].opId == opId
    ensures match Scan(steps[i].args)
            case Failure(e) => CheckSteps(steps, available, universe, opId) == Some(BadReference(opId, e))
            case Success(found) =>
              && CheckRefs(found, available, universe, opId).Some?
              && CheckSteps(steps, available, universe, opId) == CheckRefs(found, available, universe, opId)
  {
    if steps[0].opId == opId && (Scan(steps[0].args).Failure? ||
                                 CheckRefs(Scan(steps[0].args).value, available, universe, opId).Some?) {
      i := 0;
    } else {
      i := StepsError(steps[1..], available, universe, opId);
      i := i + 1;
    }
  }

  lemma {:induction false} FromError(plan: Plan, k: nat, steps: seq<Step>, available: seq<string>,
                                     universe: seq<string>)
    requires k <= |plan.ops| && ListsEarlier(plan.ops, steps, k, available)
    requires forall x :: x in universe <==> Exists(plan, steps, x)
    requires CheckFrom(plan.ops, k, steps, available, universe).Some?
    ensures SomeBadStep(plan, steps, CheckFrom(plan.ops, k, steps, available, universe).value)
    decreases |plan.ops| - k
  {
    var opId := plan.ops[k].id;
    var first := CheckSteps(steps, available, universe, opId);
    if first.Some? {
      var i := StepsError(steps, available, universe, opId);
      if Scan(steps[i].args).Success? {
        var found := Scan(steps[i].args).value;
        RefsError(found, available, universe, opId);
        var r :| r in found && r.op !in available && first.value ==
            if r.op in universe then ForwardReference(opId, Show(r), r.op) else UnknownReference(opId, Show(r), r.op);
        assert Misplaced(plan, steps, k, r, first.value);
      }
      assert BadStep(plan, steps, k, i, first.value);
    } else {
      EarlierGrows(plan.ops, steps, k, available);
      FromError(plan, k + 1, steps, available + [opId] + IdsUnder(steps, opId), universe);
    }
  }

  lemma {:induction false} PassError(names: Names, opIndex: nat, op: Op, steps: seq<Step>) returns (i: nat)
    requires opIndex <= |names.byPosition| && RewriteSteps(names, opIndex, op, steps).Failure?
    ensures i < |steps| && steps[i].opId == op.id
    ensures RewriteArgs(names, opIndex, op, steps[i].args) ==
            Failure(RewriteSteps(names, opIndex, op, steps).error)
  {
    if steps[0].opId == op.id && RewriteArgs(names, opIndex, op, steps[0].args).Failure? {
      i := 0;
    } else {
      i := PassError(names, opIndex, op, steps[1..]);
      i := i + 1;
    }
  }

  lemma {:induction false} TargetError(names: Names, ops: seq<Op>, k: nat, steps: seq<Step>) returns (a: nat, i: nat)
    requires k <= |ops| <= |names.byPosition| && DistinctIds(ops)
    requires RewriteFrom(names, ops, k, steps).Failure?
    ensures k <= a < |ops| && i < |steps| && steps[i].opId == ops[a].id
    ensures RewriteArgs(names, a, ops[a], steps[i].args) == Failure(RewriteFrom(names, ops, k, steps).error)
    decreases |ops| - k
  {
    match RewriteSteps(names, k, ops[k], steps)
    case Failure(_) =>
      a := k;
      i := PassError(names, k, ops[k], steps);
    case Success(next) =>
      RewriteStepsShape(names, k, ops[k], steps);
      a, i := TargetError(names, ops, k + 1, next);
      assert ops[k].id != ops[a].id;
  }

  ghost predicate AllSay(plan: Plan, library: Library, fills: seq<seq<Field>>)
    requires |fills| == |plan.ops|
  {
    forall a | 0 <= a < |plan.ops| :: Says(plan, library, fills, a).Success?
  }

  /** Rewritten, some call of the expansion is a bad step. */
  ghost predicate SomeBadCall(plan: Plan, library: Library, fills: seq<seq<Field>>, expanded: Expanded,
                              error: CompileError)
    requires |fills| == |plan.ops|
  {
    exists steps ::
      && SameShape(expanded.steps, steps) && AllCarried(plan, library, fills, steps, expanded.expansion)
      && SomeBadStep(plan, steps, error)
  }

  /** Every refusal is true of the plan: the first operation the library refuses, a plan that comes
      to no call at all, arguments that cannot be rewritten, or a reference that is malformed, names
      nothing, or names what does not come earlier. */
  lemma {:induction false} RefusalsAreTrue(plan: Plan, library: Library)
    requires ValidPlan(plan) && Compiled(plan, library).Failure?
    ensures var fills, error := DefaultFills(plan), Compiled(plan, library).error;
            && (AllSay(plan, library, fills) ==>
                  exists expanded ::
                    && AllTold(plan, library, fills, |plan.ops|, expanded)
                    && if expanded.steps == [] then error == NothingToDo else
                         || SomeBadTarget(plan, expanded.steps, error)
                         || SomeBadCall(plan, library, fills, expanded, error))
            && (!AllSay(plan, library, fills) ==>
                  exists a: nat, e ::
                    && RefusesFirst(plan, library, fills, a, e)
                    && error == ExpansionFailed(plan.ops[a].id, plan.ops[a].op, e))
  {
    hide AllTold, AllCarried, ExpandFrom, RewriteFrom, CheckFrom, SameShape, RefusesFirst, SomeBadStep, SomeBadTarget;
    var fills, error := DefaultFills(plan), Compiled(plan, library).error;
    StartsTold(plan, library);
    match ExpandFrom(plan, library, 0, Expanded([], []))
    case Failure(_) =>
      SomeRefuses(plan, library, fills);
    case Success(expanded) =>
      ToldSays(plan, library, fills, expanded);
      var names := NamesOf(plan.ops, expanded.steps);
      if expanded.steps != [] {
        match RewriteFrom(names, plan.ops, 0, expanded.steps)
        case Failure(_) =>
          TargetRefused(plan, expanded.steps);
        case Success(steps) =>
          CarriedFromTold(plan, library, fills, expanded, steps);
          SameIds(plan, expanded.steps, steps);
          StepRefused(plan, steps);
      }
  }

  lemma {:induction false} SomeRefuses(plan: Plan, library: Library, fills: seq<seq<Field>>)
    requires |fills| == |plan.ops|
    ensures AllSay(plan, library, fills) <==> forall a: nat, e :: !RefusesFirst(plan, library, fills, a, e)
  {
    if exists a :: 0 <= a < |plan.ops| && Says(plan, library, fills, a).Failure? {
      var a: nat :| a < |plan.ops| && Says(plan, library, fills, a).Failure?;
      SomeFirst(plan, library, fills, a);
    }
  }

  lemma {:induction false} SomeFirst(plan: Plan, library: Library, fills: seq<seq<Field>>, a: nat)
    requires |fills| == |plan.ops| && a < |plan.ops| && Says(plan, library, fills, a).Failure?
    ensures exists b: nat, e :: RefusesFirst(plan, library, fills, b, e)
  {
    if b: nat :| b < a && Says(plan, library, fills, b).Failure? {
      SomeFirst(plan, library, fills, b);
    } else {
      assert RefusesFirst(plan, library, fills, a, Says(plan, library, fills, a).error);
    }
  }

  lemma {:induction false} ToldSays(plan: Plan, library: Library, fills: seq<seq<Field>>, expanded: Expanded)
    requires |fills| == |plan.ops| && AllTold(plan, library, fills, |plan.ops|, expanded)
    ensures AllSay(plan, library, fills)
  {
    forall a | 0 <= a < |plan.ops| ensures Says(plan, library, fills, a).Success? {
      assert Told(plan.ops[a], Says(plan, library, fills, a), expanded.steps, expanded.expansion[a],
                  Offset(expanded.expansion, a));
    }
  }

  lemma {:induction false} TargetRefused(plan: Plan, told: seq<Step>)
    requires DistinctIds(plan.ops) && RewriteFrom(NamesOf(plan.ops, told), plan.ops, 0, told).Failure?
    ensures SomeBadTarget(plan, told, RewriteFrom(NamesOf(plan.ops, told), plan.ops, 0, told).error)
  {
    var error := RewriteFrom(NamesOf(plan.ops, told), plan.ops, 0, told).error;
    var a, i := TargetError(NamesOf(plan.ops, told), plan.ops, 0, told);
    assert BadTarget(plan, told, a, i, error);
  }

  lemma {:induction false} StepRefused(plan: Plan, steps: seq<Step>)
    requires CheckFrom(plan.ops, 0, steps, [], NamesOf(plan.ops, steps).universe).Some?
    ensures SomeBadStep(plan, steps, CheckFrom(plan.ops, 0, steps, [], NamesOf(plan.ops, steps).universe).value)
  {
    var universe := NamesOf(plan.ops, steps).universe;
    forall x ensures x in universe <==> Exists(plan, steps, x) {
      UniverseHolds(plan, steps, x);
    }
    assert ListsEarlier(plan.ops, steps, 0, []);
    FromError(plan, 0, steps, [], universe);
  }
}
