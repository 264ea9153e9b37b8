/** What a plan compiles to: steps with ids and arguments, and how many each operation came to. */
module Programs {
  import opened Json
  import opened Refs
  import opened Plans

  datatype StepSpec = StepSpec(tool: string, args: Json)

  /** One tool call, addressable and traceable to its operation. */
  datatype Step = Step(id: string, opId: string, op: string, tool: string, args: Json)

  datatype Expansion = Expansion(opId: string, op: string, steps: nat)

  datatype Program = Program(
    planId: string,
    documents: seq<string>,
    baseRevisions: seq<Pin>,
    validators: seq<string>,
    constraints: seq<string>,
    policy: RollbackPolicy,
    steps: seq<Step>,
    expansion: seq<Expansion>)

  /** The step as a `{tool, args}` call. */
  function ToCall(tool: string, args: Json): Json {
    Obj(Insert(Insert([], "tool", Str(tool)), "args", args))
  }

  function ToCalls(program: Program): Json {
    Arr(seq(|program.steps|, i requires 0 <= i < |program.steps| =>
        ToCall(program.steps[i].tool, program.steps[i].args)))
  }

  /** Whether any step still carries a reference that parses. */
  predicate HasReferences(program: Program) {
    exists i | 0 <= i < |program.steps| ::
      Scan(program.steps[i].args).Success? && Scan(program.steps[i].args).value != []
  }
}
