/** Plans as documents: decoding them strictly and writing them back. */
module Plans {
  import opened Wrappers
  import opened Text
  import opened Json
  import opened Refs

  const IR_VERSION: nat := 1

  // ----- what happens to completed work when an operation fails -----

  datatype RollbackPolicy = Atomic | StopOnError | Continue {
    function Name(): string {
      match this
      case Atomic => "atomic"
      case StopOnError => "stop_on_error"
      case Continue => "continue"
    }

    predicate RollsBack() {
      Atomic?
    }

    predicate Halts() {
      !Continue?
    }
  }

  function ParsePolicy(s: string): Option<RollbackPolicy> {
    if s == "atomic" then Some(Atomic)
    else if s == "stop_on_error" then Some(StopOnError)
    else if s == "continue" then Some(Continue)
    else None
  }

  function Lower(s: string): (r: string)
    ensures |r| == |s|
  {
    seq(|s|, i requires 0 <= i < |s| => if 'A' <= s[i] <= 'Z' then s[i] - 'A' + 'a' else s[i])
  }

  /** The spellings a caller uses for "not set". */
  predicate MeansUnset(s: string) {
    var name := Lower(Trim(s));
    name == "" || name == "none" || name == "null" || name == "default"
  }

  // ----- the document -----

  datatype Op = Op(id: string, op: string, with: Json)

  datatype Pin = Pin(path: string, revision: string)

  datatype Plan = Plan(
    planId: string,
    irVersion: nat,
    documents: seq<string>,
    baseRevisions: seq<Pin>,
    defaults: seq<Field>,
    ops: seq<Op>,
    constraints: seq<string>,
    validators: seq<string>,
    policy: RollbackPolicy)

  datatype PlanError =
    | NotAnObject
    | Missing(field: string)
    | WrongType(field: string, expected: string)
    | UnsupportedVersion(found: nat)
    | DuplicateOpId(id: string)
    | BadOpId(id: string)
    | UnknownPolicy(spelling: string)
    | Empty

  /** Ids a reference can name: characters of one class, and nothing a dotted path is split at. */
  predicate IsValidOpId(id: string) {
    id != "" && forall i | 0 <= i < |id| :: IsIdChar(id[i])
  }

  function AsU64(value: Json): Option<nat> {
    if value.Number? && value.numeral != "" && AllDigits(value.numeral) && DecimalValue(value.numeral) <= U64_MAX
    then Some(DecimalValue(value.numeral)) else None
  }

  /** A field that is absent, or null, reads as `None`. */
  function Given(fields: seq<Field>, name: string): Option<Json> {
    var v := Get(fields, name);
    if v == Some(Null) then None else v
  }

  function OptionalStr(fields: seq<Field>, name: string): Result<Option<string>, PlanError> {
    match Given(fields, name)
    case None => Success(None)
    case Some(Str(s)) => Success(Some(s))
    case Some(_) => Failure(WrongType(name, "a string"))
  }

  function At(name: string, index: nat): string {
    name + "[" + Decimal(index) + "]"
  }

  function Strings(items: seq<Json>, name: string, index: nat): Result<seq<string>, PlanError> {
    if items == [] then Success([])
    else if !items[0].Str? then Failure(WrongType(At(name, index), "a string"))
    else
      var rest :- Strings(items[1..], name, index + 1);
      Success([items[0].text] + rest)
  }

  function StringArray(fields: seq<Field>, name: string): Result<seq<string>, PlanError> {
    match Given(fields, name)
    case None => Success([])
    case Some(Arr(items)) => Strings(items, name, 0)
    case Some(_) => Failure(WrongType(name, "an array of strings"))
  }

  function DecodeVersion(fields: seq<Field>): Result<nat, PlanError> {
    match Given(fields, "ir_version")
    case None => Success(IR_VERSION)
    case Some(v) =>
      match AsU64(v)
      case None => Failure(WrongType("ir_version", "an integer"))
      case Some(found) => if found != IR_VERSION then Failure(UnsupportedVersion(found)) else Success(found)
  }

  /** Insertion into a path-ordered map of revisions. */
  function InsertPin(pins: seq<Pin>, pin: Pin): seq<Pin> {
    if pins == [] then [pin]
    else if pins[0].path == pin.path then [pin] + pins[1..]
    else if Less(pin.path, pins[0].path) then [pin] + pins
    else [pins[0]] + InsertPin(pins[1..], pin)
  }

  function Pins(entries: seq<Field>, out: seq<Pin>): Result<seq<Pin>, PlanError> {
    if entries == [] then Success(out)
    else if !entries[0].value.Str? then
      Failure(WrongType("base_revisions." + entries[0].name, "a revision string"))
    else Pins(entries[1..], InsertPin(out, Pin(entries[0].name, entries[0].value.text)))
  }

  function DecodePins(fields: seq<Field>): Result<seq<Pin>, PlanError> {
    match Given(fields, "base_revisions")
    case None => Success([])
    case Some(Obj(entries)) => Pins(entries, [])
    case Some(_) => Failure(WrongType("base_revisions", "an object of path -> revision"))
  }

  function DecodeDefaults(fields: seq<Field>): Result<seq<Field>, PlanError> {
    match Given(fields, "defaults")
    case None => Success([])
    case Some(Obj(entries)) => Success(entries)
    case Some(_) => Failure(WrongType("defaults", "an object"))
  }

  function DecodePolicy(fields: seq<Field>): Result<RollbackPolicy, PlanError> {
    var given :- OptionalStr(fields, "rollback_policy");
    match given
    case None => Success(Atomic)
    case Some(s) =>
      if MeansUnset(s) then Success(Atomic)
      else match ParsePolicy(s)
        case None => Failure(UnknownPolicy(s))
        case Some(policy) => Success(policy)
  }

  /** Everything but the operations. */
  function DecodeHead(fields: seq<Field>): Result<Plan, PlanError> {
    var version :- DecodeVersion(fields);
    var planId :- OptionalStr(fields, "plan_id");
    var documents :- StringArray(fields, "documents");
    var constraints :- StringArray(fields, "constraints");
    var validators :- StringArray(fields, "validators");
    var pins :- DecodePins(fields);
    var defaults :- DecodeDefaults(fields);
    var policy :- DecodePolicy(fields);
    Success(Plan(if planId.Some? then planId.value else "", version, documents, pins, defaults, [],
                 constraints, validators, policy))
  }

  function RawOps(fields: seq<Field>): Result<seq<Json>, PlanError> {
    match Get(fields, "ops")
    case None => Failure(Missing("ops"))
    case Some(Arr(items)) => if items == [] then Failure(Empty) else Success(items)
    case Some(_) => Failure(WrongType("ops", "an array of operations"))
  }

  /** The id an operation is given when it names none. */
  function AssignedId(index: nat): string {
    "op" + Decimal(index + 1)
  }

  function DecodeId(entry: seq<Field>, index: nat): Result<string, PlanError> {
    match Given(entry, "id")
    case None => Success(AssignedId(index))
    case Some(Str(s)) => Success(s)
    case Some(_) => Failure(WrongType(At("ops", index) + ".id", "a string"))
  }

  function DecodeWith(entry: seq<Field>, index: nat): Result<Json, PlanError> {
    match Given(entry, "with")
    case None => Success(Obj([]))
    case Some(Obj(fields)) => Success(Obj(fields))
    case Some(_) => Failure(WrongType(At("ops", index) + ".with", "an object"))
  }

  function DecodeOp(raw: Json, index: nat, seen: seq<string>): Result<Op, PlanError> {
    if !raw.Obj? then Failure(WrongType(At("ops", index), "an object"))
    else
      var name := Get(raw.fields, "op");
      if name.None? || !name.value.Str? then Failure(Missing(At("ops", index) + ".op"))
      else
        var id :- DecodeId(raw.fields, index);
        if !IsValidOpId(id) then Failure(BadOpId(id))
        else if id in seen then Failure(DuplicateOpId(id))
        else
          var with :- DecodeWith(raw.fields, index);
          Success(Op(id, name.value.text, with))
  }

  function DecodeOps(raw: seq<Json>, index: nat, seen: seq<string>): Result<seq<Op>, PlanError> {
    if raw == [] then Success([])
    else
      var op :- DecodeOp(raw[0], index, seen);
      var rest :- DecodeOps(raw[1..], index + 1, seen + [op.id]);
      Success([op] + rest)
  }

  /** The plan a document stands for, or the first thing wrong with it. */
  function Decode(value: Json): Result<Plan, PlanError> {
    if !value.Obj? then Failure(NotAnObject)
    else
      var head :- DecodeHead(value.fields);
      var raw :- RawOps(value.fields);
      var ops :- DecodeOps(raw, 0, []);
      Success(head.(ops := ops))
  }

  function Ids(ops: seq<Op>): seq<string> {
    seq(|ops|, i requires 0 <= i < |ops| => ops[i].id)
  }

  method FromJson(value: Json) returns (r: Result<Plan, PlanError>)
    ensures r == Decode(value)
  {
    if !value.Obj? {
      return Failure(NotAnObject);
    }
    var head := DecodeHead(value.fields);
    if head.Failure? {
      return Failure(head.error);
    }
    var raw := RawOps(value.fields);
    if raw.Failure? {
      return Failure(raw.error);
    }
    var items := raw.value;
    var ops: seq<Op> := [];
    var seen: seq<string> := [];
    assert items[0..] == items && forall more: seq<Op> :: ops + more == more;
    for index := 0 to |items|
      invariant seen == Ids(ops)
      invariant DecodeOps(items, 0, []) == Prefixed(ops, DecodeOps(items[index..], index, seen))
    {
      assert items[index..][1..] == items[index + 1..];
      var op := DecodeOp(items[index], index, seen);
      if op.Failure? {
        return Failure(op.error);
      }
      ghost var rest := DecodeOps(items[index + 1..], index + 1, seen + [op.value.id]);
      assert rest.Success? ==> ops + ([op.value] + rest.value) == ops + [op.value] + rest.value;
      seen := seen + [op.value.id];
      ops := ops + [op.value];
    }
    assert ops + [] == ops;
    r := Success(head.value.(ops := ops));
  }

  ghost function Prefixed(ops: seq<Op>, rest: Result<seq<Op>, PlanError>): Result<seq<Op>, PlanError> {
    match rest
    case Failure(e) => Failure(e)
    case Success(more) => Success(ops + more)
  }

  // ----- writing a plan back -----

  function StringItems(strings: seq<string>): seq<Json> {
    seq(|strings|, i requires 0 <= i < |strings| => Str(strings[i]))
  }

  function PinFields(pins: seq<Pin>): seq<Field> {
    seq(|pins|, i requires 0 <= i < |pins| => Field(pins[i].path, Str(pins[i].revision)))
  }

  function OpEntry(op: Op): Json {
    Obj(Insert(Insert(Insert([], "id", Str(op.id)), "op", Str(op.op)), "with", op.with))
  }

  function OpEntries(ops: seq<Op>): seq<Json> {
    seq(|ops|, i requires 0 <= i < |ops| => OpEntry(ops[i]))
  }

  function InsertIf(fields: seq<Field>, present: bool, name: string, value: Json): seq<Field> {
    if present then Insert(fields, name, value) else fields
  }

  function Encode(plan: Plan): Json {
    var map0 := InsertIf([], plan.planId != "", "plan_id", Str(plan.planId));
    var map1 := Insert(map0, "ir_version", Number(Decimal(plan.irVersion)));
    var map2 := InsertIf(map1, plan.documents != [], "documents", Arr(StringItems(plan.documents)));
    var map3 := InsertIf(map2, plan.baseRevisions != [], "base_revisions", Obj(PinFields(plan.baseRevisions)));
    var map4 := InsertIf(map3, plan.defaults != [], "defaults", Obj(plan.defaults));
    var map5 := Insert(map4, "ops", Arr(OpEntries(plan.ops)));
    var map6 := InsertIf(map5, plan.constraints != [], "constraints", Arr(StringItems(plan.constraints)));
    var map7 := InsertIf(map6, plan.validators != [], "validators", Arr(StringItems(plan.validators)));
    Obj(Insert(map7, "rollback_policy", Str(plan.policy.Name())))
  }

  // ----- what an accepted plan looks like, and the round trip -----

  ghost predicate DistinctIds(ops: seq<Op>) {
    forall i, j | 0 <= i < j < |ops| :: ops[i].id != ops[j].id
  }

  ghost predicate OrderedPins(pins: seq<Pin>) {
    forall i, j | 0 <= i < j < |pins| :: Less(pins[i].path, pins[j].path)
  }

  ghost predicate ValidPlan(plan: Plan) {
    && plan.irVersion == IR_VERSION
    && plan.ops != []
    && DistinctIds(plan.ops)
    && (forall i | 0 <= i < |plan.ops| :: IsValidOpId(plan.ops[i].id) && plan.ops[i].with.Obj?)
    && OrderedPins(plan.baseRevisions)
  }

  lemma {:induction false} DecodedOps(raw: seq<Json>, index: nat, seen: seq<string>)
    requires DecodeOps(raw, index, seen).Success?
    ensures var ops := DecodeOps(raw, index, seen).value;
            && |ops| == |raw|
            && DistinctIds(ops)
            && (forall i | 0 <= i < |ops| :: IsValidOpId(ops[i].id) && ops[i].with.Obj? && ops[i].id !in seen)
  {
    if raw != [] {
      var op := DecodeOp(raw[0], index, seen).value;
      DecodedOps(raw[1..], index + 1, seen + [op.id]);
      var rest := DecodeOps(raw[1..], index + 1, seen + [op.id]).value;
      assert op.id in seen + [op.id];
      assert forall i | 0 <= i < |rest| :: rest[i].id != op.id && rest[i].id !in seen;
    }
  }

  lemma {:induction false} InsertPinOrdered(pins: seq<Pin>, pin: Pin)
    requires OrderedPins(pins)
    ensures OrderedPins(InsertPin(pins, pin))
    ensures forall p | p in InsertPin(pins, pin) :: p == pin || p in pins
  {
    if pins != [] {
      if pins[0].path == pin.path {
        assert forall i | 0 < i < |pins| :: Less(pins[0].path, pins[i].path);
      } else if Less(pin.path, pins[0].path) {
        forall i | 0 < i < |pins| ensures Less(pin.path, pins[i].path) {
          LessTransitive(pin.path, pins[0].path, pins[i].path);
        }
      } else {
        LessTotal(pin.path, pins[0].path);
        InsertPinOrdered(pins[1..], pin);
        var rest := InsertPin(pins[1..], pin);
        forall i | 0 <= i < |rest| ensures Less(pins[0].path, rest[i].path) {
          assert rest[i] in rest;
          if rest[i] != pin {
            var j :| 0 <= j < |pins[1..]| && pins[1..][j] == rest[i];
            assert pins[j + 1] == rest[i];
          }
        }
      }
    }
  }

  lemma {:induction false} DecodedPins(entries: seq<Field>, out: seq<Pin>)
    requires OrderedPins(out) && Pins(entries, out).Success?
    ensures OrderedPins(Pins(entries, out).value)
  {
    if entries != [] {
      InsertPinOrdered(out, Pin(entries[0].name, entries[0].value.text));
      DecodedPins(entries[1..], InsertPin(out, Pin(entries[0].name, entries[0].value.text)));
    }
  }

  /** Every plan the parser accepts has the current version, at least one operation, pairwise
      distinct well-formed ids, and object parameters. */
  lemma {:induction false} DecodedIsValid(value: Json)
    requires Decode(value).Success?
    ensures ValidPlan(Decode(value).value)
  {
    var fields := value.fields;
    DecodedOps(RawOps(fields).value, 0, []);
    if Given(fields, "base_revisions").Some? {
      DecodedPins(Given(fields, "base_revisions").value.fields, []);
    }
  }

  lemma {:induction false} StringsBack(strings: seq<string>, name: string, index: nat)
    ensures Strings(StringItems(strings), name, index) == Success(strings)
  {
    if strings != [] {
      StringsBack(strings[1..], name, index + 1);
      assert StringItems(strings)[1..] == StringItems(strings[1..]);
      assert [strings[0]] + strings[1..] == strings;
    }
  }

  lemma {:induction false} InsertPinLast(pins: seq<Pin>, pin: Pin)
    requires OrderedPins(pins + [pin])
    ensures InsertPin(pins, pin) == pins + [pin]
  {
    if pins != [] {
      var all := pins + [pin];
      assert Less(all[0].path, all[|pins|].path);
      LessIrreflexive(pin.path);
      if Less(pin.path, pins[0].path) {
        LessTransitive(pin.path, pins[0].path, pin.path);
        assert false;
      }
      assert all[1..] == pins[1..] + [pin];
      InsertPinLast(pins[1..], pin);
    }
  }

  lemma {:induction false} PinsBack(done: seq<Pin>, rest: seq<Pin>)
    requires OrderedPins(done + rest)
    ensures Pins(PinFields(rest), done) == Success(done + rest)
    decreases |rest|
  {
    if rest == [] {
      assert done + [] == done;
    } else {
      var all := done + rest;
      assert done + [rest[0]] == all[..|done| + 1];
      InsertPinLast(done, rest[0]);
      assert done + [rest[0]] + rest[1..] == all;
      PinsBack(done + [rest[0]], rest[1..]);
      assert PinFields(rest)[1..] == PinFields(rest[1..]);
    }
  }

  lemma {:induction false} OpBack(op: Op, index: nat, seen: seq<string>)
    requires IsValidOpId(op.id) && op.with.Obj? && op.id !in seen
    ensures DecodeOp(OpEntry(op), index, seen) == Success(op)
  {
    var one := Insert([], "id", Str(op.id));
    var two := Insert(one, "op", Str(op.op));
    var entry := OpEntry(op).fields;
    GetAfterInsert(two, "with", op.with, "id");
    GetAfterInsert(two, "with", op.with, "op");
    GetAfterInsert(two, "with", op.with, "with");
    GetAfterInsert(one, "op", Str(op.op), "id");
    GetAfterInsert(one, "op", Str(op.op), "op");
    GetAfterInsert([], "id", Str(op.id), "id");
    assert "id"[0] != "op"[0] && "id"[0] != "with"[0] && "op"[0] != "with"[0];
  }

  lemma {:induction false} OpsBack(ops: seq<Op>, index: nat, seen: seq<string>)
    requires DistinctIds(ops)
    requires forall i | 0 <= i < |ops| :: IsValidOpId(ops[i].id) && ops[i].with.Obj? && ops[i].id !in seen
    ensures DecodeOps(OpEntries(ops), index, seen) == Success(ops)
  {
    if ops != [] {
      OpBack(ops[0], index, seen);
      OpsBack(ops[1..], index + 1, seen + [ops[0].id]);
      assert OpEntries(ops)[1..] == OpEntries(ops[1..]);
      assert [ops[0]] + ops[1..] == ops;
    }
  }

  /** The field a written plan holds under `name`. */
  ghost function Written(plan: Plan, name: string): Option<Json> {
    if name == "rollback_policy" then Some(Str(plan.policy.Name()))
    else if name == "validators" && plan.validators != [] then Some(Arr(StringItems(plan.validators)))
    else if name == "constraints" && plan.constraints != [] then Some(Arr(StringItems(plan.constraints)))
    else if name == "ops" then Some(Arr(OpEntries(plan.ops)))
    else if name == "defaults" && plan.defaults != [] then Some(Obj(plan.defaults))
    else if name == "base_revisions" && plan.baseRevisions != [] then Some(Obj(PinFields(plan.baseRevisions)))
    else if name == "documents" && plan.documents != [] then Some(Arr(StringItems(plan.documents)))
    else if name == "ir_version" then Some(Number(Decimal(plan.irVersion)))
    else if name == "plan_id" && plan.planId != "" then Some(Str(plan.planId))
    else None
  }

  lemma {:induction false} InsertIfReads(fields: seq<Field>, present: bool, name: string, value: Json, other: string)
    ensures Get(InsertIf(fields, present, name, value), other) ==
            if present && other == name then Some(value) else Get(fields, other)
  {
    GetAfterInsert(fields, name, value, other);
  }

  lemma {:induction false} WrittenIsRead(plan: Plan, name: string)
    ensures Get(Encode(plan).fields, name) == Written(plan, name)
  {
    var map0 := InsertIf([], plan.planId != "", "plan_id", Str(plan.planId));
    var map1 := InsertIf(map0, true, "ir_version", Number(Decimal(plan.irVersion)));
    var map2 := InsertIf(map1, plan.documents != [], "documents", Arr(StringItems(plan.documents)));
    var map3 := InsertIf(map2, plan.baseRevisions != [], "base_revisions", Obj(PinFields(plan.baseRevisions)));
    var map4 := InsertIf(map3, plan.defaults != [], "defaults", Obj(plan.defaults));
    var map5 := InsertIf(map4, true, "ops", Arr(OpEntries(plan.ops)));
    var map6 := InsertIf(map5, plan.constraints != [], "constraints", Arr(StringItems(plan.constraints)));
    var map7 := InsertIf(map6, plan.validators != [], "validators", Arr(StringItems(plan.validators)));
    InsertIfReads([], plan.planId != "", "plan_id", Str(plan.planId), name);
    InsertIfReads(map0, true, "ir_version", Number(Decimal(plan.irVersion)), name);
    InsertIfReads(map1, plan.documents != [], "documents", Arr(StringItems(plan.documents)), name);
    InsertIfReads(map2, plan.baseRevisions != [], "base_revisions", Obj(PinFields(plan.baseRevisions)), name);
    InsertIfReads(map3, plan.defaults != [], "defaults", Obj(plan.defaults), name);
    InsertIfReads(map4, true, "ops", Arr(OpEntries(plan.ops)), name);
    InsertIfReads(map5, plan.constraints != [], "constraints", Arr(StringItems(plan.constraints)), name);
    InsertIfReads(map6, plan.validators != [], "validators", Arr(StringItems(plan.validators)), name);
    GetAfterInsert(map7, "rollback_policy", Str(plan.policy.Name()), name);
  }

  lemma {:induction false} NamesDiffer()
    ensures |"plan_id"| == 7 && |"ir_version"| == 10 && |"documents"| == 9 && |"base_revisions"| == 14
    ensures |"defaults"| == 8 && |"ops"| == 3 && |"constraints"| == 11 && |"rollback_policy"| == 15
    ensures |"validators"| == 10 && "validators" != "ir_version"
  {
    assert "validators"[0] != "ir_version"[0];
  }

  lemma {:induction false} StringArrayBack(fields: seq<Field>, name: string, strings: seq<string>)
    requires Get(fields, name) == if strings != [] then Some(Arr(StringItems(strings))) else None
    ensures StringArray(fields, name) == Success(strings)
  {
    StringsBack(strings, name, 0);
  }

  lemma {:induction false} PolicyBack(policy: RollbackPolicy)
    ensures !MeansUnset(policy.Name()) && ParsePolicy(policy.Name()) == Some(policy)
  {
    var s := policy.Name();
    assert TrimStart(s) == s && TrimEnd(s) == s;
    assert |Lower(Trim(s))| == |s|;
    assert |"atomic"| == 6 && |"stop_on_error"| == 13 && |"continue"| == 8;
    assert |"none"| == 4 && |"null"| == 4 && |"default"| == 7;
  }

  lemma {:induction false} DocumentsBack(plan: Plan)
    ensures StringArray(Encode(plan).fields, "documents") == Success(plan.documents)
  {
    NamesDiffer();
    WrittenIsRead(plan, "documents");
    StringArrayBack(Encode(plan).fields, "documents", plan.documents);
  }

  lemma {:induction false} ConstraintsBack(plan: Plan)
    ensures StringArray(Encode(plan).fields, "constraints") == Success(plan.constraints)
  {
    NamesDiffer();
    WrittenIsRead(plan, "constraints");
    StringArrayBack(Encode(plan).fields, "constraints", plan.constraints);
  }

  lemma {:induction false} ValidatorsBack(plan: Plan)
    ensures StringArray(Encode(plan).fields, "validators") == Success(plan.validators)
  {
    NamesDiffer();
    WrittenIsRead(plan, "validators");
    StringArrayBack(Encode(plan).fields, "validators", plan.validators);
  }

  lemma {:induction false} RevisionsBack(plan: Plan)
    requires ValidPlan(plan)
    ensures DecodePins(Encode(plan).fields) == Success(plan.baseRevisions)
  {
    NamesDiffer();
    WrittenIsRead(plan, "base_revisions");
    hide Encode, OrderedPins, Pins, PinFields;
    assert [] + plan.baseRevisions == plan.baseRevisions;
    PinsBack([], plan.baseRevisions);
    NoPins();
  }

  lemma {:induction false} NoPins()
    ensures Pins([], []) == Success([])
  {
  }

  lemma {:induction false} DefaultsBack(plan: Plan)
    ensures DecodeDefaults(Encode(plan).fields) == Success(plan.defaults)
  {
    NamesDiffer();
    WrittenIsRead(plan, "defaults");
  }

  lemma {:induction false} VersionBack(plan: Plan)
    requires ValidPlan(plan)
    ensures DecodeVersion(Encode(plan).fields) == Success(plan.irVersion)
  {
    NamesDiffer();
    WrittenIsRead(plan, "ir_version");
    ValueOfDecimal(plan.irVersion);
  }

  lemma {:induction false} PlanIdBack(plan: Plan)
    ensures OptionalStr(Encode(plan).fields, "plan_id") ==
              Success(if plan.planId != "" then Some(plan.planId) else None)
  {
    NamesDiffer();
    WrittenIsRead(plan, "plan_id");
  }

  lemma {:induction false} PolicyFieldBack(plan: Plan)
    ensures DecodePolicy(Encode(plan).fields) == Success(plan.policy)
  {
    WrittenIsRead(plan, "rollback_policy");
    PolicyBack(plan.policy);
  }

  lemma {:induction false} HeadBack(plan: Plan)
    requires ValidPlan(plan)
    ensures DecodeHead(Encode(plan).fields) == Success(plan.(ops := []))
  {
    VersionBack(plan);
    PlanIdBack(plan);
    DocumentsBack(plan);
    ConstraintsBack(plan);
    ValidatorsBack(plan);
    RevisionsBack(plan);
    DefaultsBack(plan);
    PolicyFieldBack(plan);
  }

  /** The round trip: writing a plan and reading it back gives the plan exactly when it is one
      the parser could have accepted. */
  lemma {:induction false} RoundTrip(plan: Plan)
    ensures Decode(Encode(plan)) == Success(plan) <==> ValidPlan(plan)
  {
    if Decode(Encode(plan)) == Success(plan) {
      DecodedIsValid(Encode(plan));
    }
    if ValidPlan(plan) {
      HeadBack(plan);
      NamesDiffer();
      WrittenIsRead(plan, "ops");
      OpsBack(plan.ops, 0, []);
    }
  }
}
