/** Turning a declared plan into runnable steps, and refusing the ones that cannot finish. */
module Compiler {
  import opened Wrappers
  import opened Text
  import opened Json
  import opened Refs
  import opened Plans
  import opened Programs

  datatype ExpandError = ExpandError(code: string, field: Option<string>, reason: string)

  /** The caller's op library: any function from an operation to tool calls. */
  type Library = Op -> Result<seq<StepSpec>, ExpandError>

  datatype CompileError =
    | ExpansionFailed(opId: string, op: string, expandError: ExpandError)
    | BadReference(opId: string, refError: RefError)
    | UnknownReference(opId: string, reference: string, target: string)
    | ForwardReference(opId: string, reference: string, target: string)
    | AmbiguousNumericReference(opId: string, reference: string, available: seq<string>)
    | AmbiguousOpTypeReference(opId: string, reference: string, opType: string, candidates: seq<string>)
    | NothingToDo

  // ----- defaults -----

  function Merge(existing: seq<Field>, defaults: seq<Field>): seq<Field>
    decreases |defaults|
  {
    if defaults == [] then existing
    else
      var next := if Get(existing, defaults[0].name).Some? then existing
                  else Insert(existing, defaults[0].name, defaults[0].value);
      Merge(next, defaults[1..])
  }

  function WithDefaults(with: Json, defaults: seq<Field>): Json {
    if defaults == [] || !with.Obj? then with else Obj(Merge(with.fields, defaults))
  }

  /** A default fills a key only where the operation gave none; an explicit null counts as given. */
  lemma {:induction false} DefaultsFill(existing: seq<Field>, defaults: seq<Field>, name: string)
    ensures Get(Merge(existing, defaults), name) ==
            if Get(existing, name).Some? then Get(existing, name) else Get(defaults, name)
    decreases |defaults|
  {
    if defaults != [] {
      GetAfterInsert(existing, defaults[0].name, defaults[0].value, name);
      var next := if Get(existing, defaults[0].name).Some? then existing
                  else Insert(existing, defaults[0].name, defaults[0].value);
      DefaultsFill(next, defaults[1..], name);
    }
  }

  method ApplyDefaults(with: Json, defaults: seq<Field>) returns (r: Json)
    ensures r == WithDefaults(with, defaults)
  {
    if defaults == [] || !with.Obj? {
      return with;
    }
    var merged := with.fields;
    assert defaults[0..] == defaults;
    for i := 0 to |defaults|
      invariant Merge(merged, defaults[i..]) == Merge(with.fields, defaults)
    {
      assert defaults[i..][1..] == defaults[i + 1..];
      if Get(merged, defaults[i].name).None? {
        merged := Insert(merged, defaults[i].name, defaults[i].value);
      }
    }
    r := Obj(merged);
  }

  // ----- expansion -----

  function StepId(op: Op, count: nat, index: nat): string {
    if count > 1 then op.id + "/" + Decimal(index) else op.id
  }

  function StepsOf(op: Op, specs: seq<StepSpec>): (steps: seq<Step>)
    ensures |steps| == |specs|
  {
    seq(|specs|, i requires 0 <= i < |specs| =>
      Step(StepId(op, |specs|, i), op.id, op.op, specs[i].tool, specs[i].args))
  }

  function Effective(op: Op, defaults: seq<Field>): Op {
    Op(op.id, op.op, WithDefaults(op.with, defaults))
  }

  function CountOf(steps: seq<Step>, opId: string): nat {
    if steps == [] then 0
    else (if steps[0].opId == opId then 1 else 0) + CountOf(steps[1..], opId)
  }

  datatype Expanded = Expanded(steps: seq<Step>, expansion: seq<Expansion>)

  /** One operation expanded after the ones in `done`. */
  function ExpandOne(op: Op, defaults: seq<Field>, library: Library, done: Expanded): Result<Expanded, CompileError> {
    match library(Effective(op, defaults))
    case Failure(e) => Failure(ExpansionFailed(op.id, op.op, e))
    case Success(specs) =>
      var steps := done.steps + StepsOf(op, specs);
      Success(Expanded(steps, done.expansion + [Expansion(op.id, op.op, CountOf(steps, op.id))]))
  }

  /** The expansion loop from operation `k` on. */
  function ExpandFrom(plan: Plan, library: Library, k: nat, done: Expanded): Result<Expanded, CompileError>
    requires k <= |plan.ops|
    decreases |plan.ops| - k
  {
    if k == |plan.ops| then Success(done)
    else
      var next :- ExpandOne(plan.ops[k], plan.defaults, library, done);
      ExpandFrom(plan, library, k + 1, next)
  }

  method Expand(plan: Plan, library: Library) returns (r: Result<Expanded, CompileError>)
    ensures r == ExpandFrom(plan, library, 0, Expanded([], []))
  {
    var steps: seq<Step> := [];
    var expansion: seq<Expansion> := [];
    for k := 0 to |plan.ops|
      invariant ExpandFrom(plan, library, k, Expanded(steps, expansion)) ==
                ExpandFrom(plan, library, 0, Expanded([], []))
    {
      var op := plan.ops[k];
      var with := ApplyDefaults(op.with, plan.defaults);
      var specs := library(Op(op.id, op.op, with));
      if specs.Failure? {
        return Failure(ExpansionFailed(op.id, op.op, specs.error));
      }
      var multi := |specs.value| > 1;
      ghost var before := steps;
      for index := 0 to |specs.value|
        invariant steps == before + StepsOf(op, specs.value)[..index]
      {
        var spec := specs.value[index];
        var id := if multi then op.id + "/" + Decimal(index) else op.id;
        steps := steps + [Step(id, op.id, op.op, spec.tool, spec.args)];
      }
      assert StepsOf(op, specs.value)[..|specs.value|] == StepsOf(op, specs.value);
      expansion := expansion + [Expansion(op.id, op.op, CountOf(steps, op.id))];
    }
    r := Success(Expanded(steps, expansion));
  }

  // ----- canonicalising targets -----

  /** What a target can be matched against: every id, ids by position, ids by operation type. */
  datatype Names = Names(universe: seq<string>, byPosition: seq<string>, byType: map<string, seq<string>>)

  function StepIds(steps: seq<Step>): seq<string> {
    seq(|steps|, i requires 0 <= i < |steps| => steps[i].id)
  }

  /** Ids of the operations of type `kind`, in plan order. */
  function OfType(ops: seq<Op>, kind: string): seq<string> {
    if ops == [] then []
    else (if ops[0].op == kind then [ops[0].id] else []) + OfType(ops[1..], kind)
  }

  function Types(ops: seq<Op>): set<string> {
    set i | 0 <= i < |ops| :: ops[i].op
  }

  function NamesOf(ops: seq<Op>, steps: seq<Step>): Names {
    Names(Ids(ops) + StepIds(steps), Ids(ops), map kind | kind in Types(ops) :: OfType(ops, kind))
  }

  lemma {:induction false} OfTypeLast(ops: seq<Op>, op: Op, kind: string)
    ensures OfType(ops + [op], kind) == OfType(ops, kind) + (if op.op == kind then [op.id] else [])
  {
    if ops == [] {
      assert [op][1..] == [];
    } else {
      OfTypeLast(ops[1..], op, kind);
      assert (ops + [op])[1..] == ops[1..] + [op];
    }
  }

  lemma {:induction false} OfTypeSome(ops: seq<Op>, kind: string)
    ensures OfType(ops, kind) != [] <==> kind in Types(ops)
  {
    if ops != [] {
      OfTypeSome(ops[1..], kind);
      if kind in Types(ops[1..]) {
        var i :| 0 <= i < |ops[1..]| && ops[1..][i].op == kind;
        assert ops[i + 1].op == kind;
      }
      if kind in Types(ops) && ops[0].op != kind {
        var i :| 0 <= i < |ops| && ops[i].op == kind;
        assert ops[1..][i - 1].op == kind;
      }
    }
  }

  method CollectNames(ops: seq<Op>, steps: seq<Step>) returns (names: Names)
    ensures names == NamesOf(ops, steps)
  {
    var byType: map<string, seq<string>> := map[];
    for k := 0 to |ops|
      invariant byType.Keys == Types(ops[..k])
      invariant forall kind | kind in byType :: byType[kind] == OfType(ops[..k], kind)
    {
      assert ops[..k + 1] == ops[..k] + [ops[k]];
      forall kind: string
        ensures OfType(ops[..k + 1], kind) == OfType(ops[..k], kind) + (if ops[k].op == kind then [ops[k].id] else [])
        ensures kind in Types(ops[..k + 1]) <==> kind in Types(ops[..k]) || kind == ops[k].op
      {
        OfTypeLast(ops[..k], ops[k], kind);
        OfTypeSome(ops[..k], kind);
        OfTypeSome(ops[..k + 1], kind);
      }
      OfTypeSome(ops[..k], ops[k].op);
      var sofar := if ops[k].op in byType then byType[ops[k].op] else [];
      byType := byType[ops[k].op := sofar + [ops[k].id]];
    }
    assert ops[..|ops|] == ops;
    names := Names(Ids(ops) + StepIds(steps), Ids(ops), byType);
    assert byType == NamesOf(ops, steps).byType;
  }

  function PositionCandidate(names: Names, opIndex: nat, target: string): Option<string> {
    if AllDigits(target) && DecimalValue(target) <= U64_MAX && DecimalValue(target) < opIndex
       && DecimalValue(target) < |names.byPosition|
    then Some(names.byPosition[DecimalValue(target)]) else None
  }

  function IdCandidate(names: Names, opIndex: nat, target: string): Option<string>
    requires opIndex <= |names.byPosition|
  {
    if target in names.byPosition[..opIndex] then Some(target) else None
  }

  /** The id a target stands for, in the arguments of the operation at `opIndex`. */
  function ResolveTarget(names: Names, opIndex: nat, opId: string, reference: Reference): Result<string, CompileError>
    requires opIndex <= |names.byPosition|
  {
    var target := reference.op;
    var numeric := target != "" && AllDigits(target);
    var position := PositionCandidate(names, opIndex, target);
    var id := IdCandidate(names, opIndex, target);
    if numeric && position.Some? && id.Some? then
      Failure(AmbiguousNumericReference(opId, Show(reference), names.byPosition))
    else if numeric && position.Some? then Success(position.value)
    else if numeric && id.Some? then Success(target)
    else if PositionTarget(target).Some? then
      var n := PositionTarget(target).value;
      Success(if n < |names.byPosition| then names.byPosition[n] else target)
    else if target in names.universe then Success(target)
    else if target in names.byType && |names.byType[target]| == 1 then Success(names.byType[target][0])
    else if target in names.byType && |names.byType[target]| > 1 then
      Failure(AmbiguousOpTypeReference(opId, Show(reference), target, names.byType[target]))
    else Success(target)
  }

  function Resolver(names: Names, opIndex: nat, opId: string): Reference -> Result<string, CompileError>
    requires opIndex <= |names.byPosition|
  {
    (r: Reference) => ResolveTarget(names, opIndex, opId, r)
  }

  function RewriteArgs(names: Names, opIndex: nat, op: Op, args: Json): Result<Json, CompileError>
    requires opIndex <= |names.byPosition|
  {
    match Rewrite(args, Resolver(names, opIndex, op.id))
    case Failure(Unparsed(e)) => Failure(BadReference(op.id, e))
    case Failure(Refused(e)) => Failure(e)
    case Success(v) => Success(v)
  }

  /** One operation's pass over the steps: its own are rewritten, the others left alone. */
  function RewriteSteps(names: Names, opIndex: nat, op: Op, steps: seq<Step>): Result<seq<Step>, CompileError>
    requires opIndex <= |names.byPosition|
  {
    if steps == [] then Success([])
    else
      var args :- if steps[0].opId == op.id then RewriteArgs(names, opIndex, op, steps[0].args)
                  else Success(steps[0].args);
      var rest :- RewriteSteps(names, opIndex, op, steps[1..]);
      Success([steps[0].(args := args)] + rest)
  }

  function RewriteFrom(names: Names, ops: seq<Op>, opIndex: nat, steps: seq<Step>): Result<seq<Step>, CompileError>
    requires opIndex <= |ops| <= |names.byPosition|
    decreases |ops| - opIndex
  {
    if opIndex == |ops| then Success(steps)
    else
      var next :- RewriteSteps(names, opIndex, ops[opIndex], steps);
      RewriteFrom(names, ops, opIndex + 1, next)
  }

  method RewriteOperation(names: Names, opIndex: nat, op: Op, steps0: seq<Step>)
    returns (r: Result<seq<Step>, CompileError>)
    requires opIndex <= |names.byPosition|
    ensures r == RewriteSteps(names, opIndex, op, steps0)
  {
    var steps := steps0;
    assert steps0[0..] == steps0 && steps[..0] == [] && forall more: seq<Step> :: [] + more == more;
    for i := 0 to |steps0|
      invariant |steps| == |steps0| && steps[i..] == steps0[i..]
      invariant RewriteSteps(names, opIndex, op, steps0) ==
                After(steps[..i], RewriteSteps(names, opIndex, op, steps0[i..]))
    {
      assert steps[i] == steps[i..][0] && steps0[i] == steps0[i..][0];
      assert steps0[i..][1..] == steps0[i + 1..];
      ghost var done, rest := steps[..i], RewriteSteps(names, opIndex, op, steps0[i + 1..]);
      if steps[i].opId == op.id {
        var args := RewriteArgs(names, opIndex, op, steps[i].args);
        if args.Failure? {
          return Failure(args.error);
        }
        steps := steps[i := steps[i].(args := args.value)];
      }
      assert steps[..i + 1] == done + [steps[i]];
      assert steps[i + 1..] == steps0[i + 1..];
      if rest.Success? {
        ConcatAssoc(done, [steps[i]], rest.value);
      }
    }
    assert steps[..|steps0|] == steps && steps + [] == steps;
    r := Success(steps);
  }

  ghost function After(done: seq<Step>, rest: Result<seq<Step>, CompileError>): Result<seq<Step>, CompileError> {
    match rest
    case Failure(e) => Failure(e)
    case Success(more) => Success(done + more)
  }

  method Canonicalise(names: Names, ops: seq<Op>, steps0: seq<Step>) returns (r: Result<seq<Step>, CompileError>)
    requires |ops| <= |names.byPosition|
    ensures r == RewriteFrom(names, ops, 0, steps0)
  {
    var steps := steps0;
    for opIndex := 0 to |ops|
      invariant RewriteFrom(names, ops, opIndex, steps) == RewriteFrom(names, ops, 0, steps0)
    {
      var next := RewriteOperation(names, opIndex, ops[opIndex], steps);
      if next.Failure? {
        return next;
      }
      steps := next.value;
    }
    r := Success(steps);
  }

  // ----- every reference names a strictly earlier operation -----

  function CheckRefs(found: seq<Reference>, available: seq<string>, universe: seq<string>, opId: string)
    : Option<CompileError>
  {
    if found == [] then None
    else if found[0].op in available then CheckRefs(found[1..], available, universe, opId)
    else if found[0].op in universe then Some(ForwardReference(opId, Show(found[0]), found[0].op))
    else Some(UnknownReference(opId, Show(found[0]), found[0].op))
  }

  function CheckSteps(steps: seq<Step>, available: seq<string>, universe: seq<string>, opId: string)
    : Option<CompileError>
  {
    if steps == [] then None
    else if steps[0].opId != opId then CheckSteps(steps[1..], available, universe, opId)
    else
      match Scan(steps[0].args)
      case Failure(e) => Some(BadReference(opId, e))
      case Success(found) =>
        var first := CheckRefs(found, available, universe, opId);
        if first.Some? then first else CheckSteps(steps[1..], available, universe, opId)
  }

  /** Ids of the steps an operation produced, in order. */
  function IdsUnder(steps: seq<Step>, opId: string): seq<string> {
    if steps == [] then []
    else (if steps[0].opId == opId then [steps[0].id] else []) + IdsUnder(steps[1..], opId)
  }

  function CheckFrom(ops: seq<Op>, k: nat, steps: seq<Step>, available: seq<string>, universe: seq<string>)
    : Option<CompileError>
    requires k <= |ops|
    decreases |ops| - k
  {
    if k == |ops| then None
    else
      var first := CheckSteps(steps, available, universe, ops[k].id);
      if first.Some? then first
      else CheckFrom(ops, k + 1, steps, available + [ops[k].id] + IdsUnder(steps, ops[k].id), universe)
  }

  method CheckReferences(ops: seq<Op>, steps: seq<Step>, universe: seq<string>) returns (r: Option<CompileError>)
    ensures r == CheckFrom(ops, 0, steps, [], universe)
  {
    var available: seq<string> := [];
    for k := 0 to |ops|
      invariant CheckFrom(ops, k, steps, available, universe) == CheckFrom(ops, 0, steps, [], universe)
    {
      var opId := ops[k].id;
      ghost var before := available;
      assert steps[0..] == steps;
      for i := 0 to |steps|
        invariant CheckSteps(steps[i..], available, universe, opId) == CheckSteps(steps, available, universe, opId)
      {
        assert steps[i..][1..] == steps[i + 1..];
        if steps[i].opId == opId {
          var found := ScanInto(steps[i].args, []);
          assert Scan(steps[i].args).Success? ==> [] + Scan(steps[i].args).value == Scan(steps[i].args).value;
          if found.Failure? {
            return Some(BadReference(opId, found.error));
          }
          var error := CheckFound(found.value, available, universe, opId);
          if error.Some? {
            return error;
          }
        }
      }
      available := available + [opId];
      for i := 0 to |steps|
        invariant available + IdsUnder(steps[i..], opId) == before + [opId] + IdsUnder(steps, opId)
      {
        assert steps[i..][1..] == steps[i + 1..];
        if steps[i].opId == opId {
          ConcatAssoc(available, [steps[i].id], IdsUnder(steps[i + 1..], opId));
          available := available + [steps[i].id];
        } else {
          assert [] + IdsUnder(steps[i + 1..], opId) == IdsUnder(steps[i + 1..], opId);
        }
      }
      assert available + [] == available;
    }
    r := None;
  }

  method CheckFound(found: seq<Reference>, available: seq<string>, universe: seq<string>, opId: string)
    returns (r: Option<CompileError>)
    ensures r == CheckRefs(found, available, universe, opId)
  {
    assert found[0..] == found;
    for j := 0 to |found|
      invariant CheckRefs(found[j..], available, universe, opId) == CheckRefs(found, available, universe, opId)
    {
      assert found[j..][1..] == found[j + 1..];
      if found[j].op in available {
        continue;
      }
      return Some(if found[j].op in universe
                  then ForwardReference(opId, Show(found[j]), found[j].op)
                  else UnknownReference(opId, Show(found[j]), found[j].op));
    }
    r := None;
  }

  // ----- the whole compilation -----

  function Compiled(plan: Plan, library: Library): Result<Program, CompileError> {
    var expanded :- ExpandFrom(plan, library, 0, Expanded([], []));
    if expanded.steps == [] then Failure(NothingToDo)
    else
      var names := NamesOf(plan.ops, expanded.steps);
      var steps :- RewriteFrom(names, plan.ops, 0, expanded.steps);
      match CheckFrom(plan.ops, 0, steps, [], names.universe)
      case Some(e) => Failure(e)
      case None =>
        Success(Program(plan.planId, plan.documents, plan.baseRevisions, plan.validators, plan.constraints,
                        plan.policy, steps, expanded.expansion))
  }

  method Compile(plan: Plan, library: Library) returns (r: Result<Program, CompileError>)
    ensures r == Compiled(plan, library)
  {
    var expanded := Expand(plan, library);
    if expanded.Failure? {
      return Failure(expanded.error);
    }
    if expanded.value.steps == [] {
      return Failure(NothingToDo);
    }
    var names := CollectNames(plan.ops, expanded.value.steps);
    var steps := Canonicalise(names, plan.ops, expanded.value.steps);
    if steps.Failure? {
      return Failure(steps.error);
    }
    var error := CheckReferences(plan.ops, steps.value, names.universe);
    if error.Some? {
      return Failure(error.value);
    }
    r := Success(Program(plan.planId, plan.documents, plan.baseRevisions, plan.validators, plan.constraints,
                         plan.policy, steps.value, expanded.value.expansion));
  }
}
