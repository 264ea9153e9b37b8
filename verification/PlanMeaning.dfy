/** What each field of a plan document means, and what each refusal says of the document. */
module PlanMeaning {
  import opened Wrappers
  import opened Text
  import opened Json
  import opened Refs
  import opened Plans

  /** A field that is missing, or null. */
  ghost predicate Absent(fields: seq<Field>, name: string) {
    Get(fields, name) == None || Get(fields, name) == Some(Null)
  }

  // ----- the spellings of "not set" -----

  /** `s` is `name` but for the case of ASCII letters, `name` holding no capital. */
  ghost predicate SpellsOut(s: string, name: string) {
    && |s| == |name|
    && forall i | 0 <= i < |s| :: s[i] == name[i] || ('A' <= s[i] <= 'Z' && s[i] as int + 32 == name[i] as int)
  }

  ghost predicate IsUnsetName(name: string) {
    SpellsOut(name, "") || SpellsOut(name, "none") || SpellsOut(name, "null") || SpellsOut(name, "default")
  }

  /** Nothing, or one of three words in any case, with white space around. */
  ghost predicate SaysUnset(s: string) {
    exists name :: TrimmedTo(s, name) && IsUnsetName(name)
  }

  lemma {:induction false} LowerSpells(s: string, name: string)
    requires forall i | 0 <= i < |name| :: !('A' <= name[i] <= 'Z')
    ensures Lower(s) == name <==> SpellsOut(s, name)
  {
    if |s| == |name| {
      assert forall i | 0 <= i < |s| :: Lower(s)[i] == name[i] <==>
          s[i] == name[i] || ('A' <= s[i] <= 'Z' && s[i] as int + 32 == name[i] as int);
    }
  }

  lemma {:induction false} UnsetNames(s: string)
    ensures IsUnsetName(s) <==> Lower(s) == "" || Lower(s) == "none" || Lower(s) == "null" || Lower(s) == "default"
  {
    LowerSpells(s, "");
    LowerSpells(s, "none");
    LowerSpells(s, "null");
    LowerSpells(s, "default");
  }

  /** The four spellings count as not set, in any case and with any white space around, and no other. */
  lemma {:induction false} UnsetExactly(s: string)
    ensures MeansUnset(s) <==> SaysUnset(s)
  {
    hide IsUnsetName, Lower, Trim, TrimmedTo;
    UnsetNames(Trim(s));
    TrimExactly(s, Trim(s));
    forall name | TrimmedTo(s, name) ensures name == Trim(s) {
      TrimExactly(s, name);
    }
  }

  // ----- one field after another -----

  ghost predicate PolicyIs(fields: seq<Field>, policy: RollbackPolicy) {
    var given := Get(fields, "rollback_policy");
    match policy
    case Atomic =>
      || Absent(fields, "rollback_policy")
      || given == Some(Str("atomic"))
      || (given.Some? && given.value.Str? && SaysUnset(given.value.text))
    case StopOnError => given == Some(Str("stop_on_error"))
    case Continue => given == Some(Str("continue"))
  }

  ghost predicate VersionIs(fields: seq<Field>, version: nat) {
    && version == 1
    && (Absent(fields, "ir_version") ||
        exists numeral :: Get(fields, "ir_version") == Some(Number(numeral)) && Numeral(numeral, 1))
  }

  /** `numeral` writes the unsigned 64-bit integer `n`. */
  ghost predicate Numeral(numeral: string, n: nat) {
    numeral != "" && AllDigits(numeral) && DecimalValue(numeral) == n < 0x1_0000_0000_0000_0000
  }

  ghost predicate PlanIdIs(fields: seq<Field>, planId: string) {
    (Absent(fields, "plan_id") && planId == "") || Get(fields, "plan_id") == Some(Str(planId))
  }

  ghost predicate ListIs(fields: seq<Field>, name: string, strings: seq<string>) {
    || (Absent(fields, name) && strings == [])
    || exists items :: Get(fields, name) == Some(Arr(items)) && Spells(items, strings)
  }

  ghost predicate Spells(items: seq<Json>, strings: seq<string>) {
    |items| == |strings| && forall i | 0 <= i < |items| :: items[i] == Str(strings[i])
  }

  ghost predicate DefaultsAre(fields: seq<Field>, defaults: seq<Field>) {
    (Absent(fields, "defaults") && defaults == []) || Get(fields, "defaults") == Some(Obj(defaults))
  }

  /** The last entry called `path` is the revision `revision`. */
  ghost predicate LastSays(entries: seq<Field>, path: string, revision: string) {
    exists i | 0 <= i < |entries| ::
      entries[i] == Field(path, Str(revision)) && forall j | i < j < |entries| :: entries[j].name != path
  }

  ghost predicate AllText(entries: seq<Field>) {
    forall i | 0 <= i < |entries| :: entries[i].value.Str?
  }

  /** Revisions by path, in path order; of two for one path the later counts. */
  ghost predicate PinsAre(fields: seq<Field>, pins: seq<Pin>) {
    && OrderedPins(pins)
    && ((Absent(fields, "base_revisions") && pins == []) ||
        exists entries :: Get(fields, "base_revisions") == Some(Obj(entries)) && PinnedBy(entries, pins))
  }

  ghost predicate PinnedBy(entries: seq<Field>, pins: seq<Pin>) {
    && AllText(entries)
    && forall path, revision :: Pin(path, revision) in pins <==> LastSays(entries, path, revision)
  }

  /** An id a reference can name: letters, digits, `_` and `-`, at least one of them. */
  ghost predicate GoodId(id: string) {
    && id != ""
    && forall i | 0 <= i < |id| ::
         || 'a' <= id[i] <= 'z' || 'A' <= id[i] <= 'Z' || '0' <= id[i] <= '9' || id[i] == '_' || id[i] == '-'
  }

  /** The id of the operation at `index`: the one given, or `op` and its place counted from one. */
  ghost predicate IdIs(entry: seq<Field>, index: nat, id: string) {
    (Absent(entry, "id") && id == "op" + Decimal(index + 1)) || Get(entry, "id") == Some(Str(id))
  }

  ghost predicate WithIs(entry: seq<Field>, with: Json) {
    with.Obj? && ((Absent(entry, "with") && with == Obj([])) || Get(entry, "with") == Some(with))
  }

  ghost predicate OpIs(item: Json, index: nat, op: Op) {
    && item.Obj? && Get(item.fields, "op") == Some(Str(op.op))
    && IdIs(item.fields, index, op.id) && GoodId(op.id) && WithIs(item.fields, op.with)
  }

  ghost predicate OpsAre(fields: seq<Field>, ops: seq<Op>) {
    && (exists items :: Get(fields, "ops") == Some(Arr(items)) && items != [] && ListsOps(items, ops))
    && forall i, j | 0 <= i < j < |ops| :: ops[i].id != ops[j].id
  }

  ghost predicate ListsOps(items: seq<Json>, ops: seq<Op>) {
    |items| == |ops| && forall i | 0 <= i < |items| :: OpIs(items[i], i, ops[i])
  }

  /** The plan a document's fields stand for. */
  ghost predicate PlanIs(fields: seq<Field>, plan: Plan) {
    && VersionIs(fields, plan.irVersion) && PlanIdIs(fields, plan.planId)
    && ListIs(fields, "documents", plan.documents) && ListIs(fields, "constraints", plan.constraints)
    && ListIs(fields, "validators", plan.validators)
    && PinsAre(fields, plan.baseRevisions) && DefaultsAre(fields, plan.defaults)
    && PolicyIs(fields, plan.policy) && OpsAre(fields, plan.ops)
  }

  lemma {:induction false} PolicyNamesStand()
    ensures !SaysUnset("atomic") && !SaysUnset("stop_on_error") && !SaysUnset("continue")
  {
    PolicyBack(Atomic);
    PolicyBack(StopOnError);
    PolicyBack(Continue);
    UnsetExactly("atomic");
    UnsetExactly("stop_on_error");
    UnsetExactly("continue");
  }

  /** Left out, null or spelt as not set, the policy is to undo everything; three names stand for
      the three policies; any other string is refused with itself, and what is no string as such. */
  lemma {:induction false} PolicyExactly(fields: seq<Field>)
    ensures forall policy :: DecodePolicy(fields) == Success(policy) <==> PolicyIs(fields, policy)
    ensures forall s :: DecodePolicy(fields) == Failure(UnknownPolicy(s)) <==>
              && Get(fields, "rollback_policy") == Some(Str(s)) && !SaysUnset(s)
              && s != "atomic" && s != "stop_on_error" && s != "continue"
    ensures DecodePolicy(fields) == Failure(WrongType("rollback_policy", "a string")) <==>
            !Absent(fields, "rollback_policy") && !Get(fields, "rollback_policy").value.Str?
  {
    hide MeansUnset, SaysUnset;
    PolicyNamesStand();
    if !Absent(fields, "rollback_policy") && Get(fields, "rollback_policy").value.Str? {
      UnsetExactly(Get(fields, "rollback_policy").value.text);
    }
  }

  lemma {:induction false} VersionExactly(fields: seq<Field>)
    ensures forall v: nat :: DecodeVersion(fields) == Success(v) <==> VersionIs(fields, v)
  {
  }

  lemma {:induction false} StringsExactly(items: seq<Json>, name: string, index: nat)
    ensures forall strings :: Strings(items, name, index) == Success(strings) <==> Spells(items, strings)
  {
    if items != [] {
      StringsExactly(items[1..], name, index + 1);
      forall strings ensures Strings(items, name, index) == Success(strings) <==> Spells(items, strings) {
        if strings != [] {
          assert strings == [strings[0]] + strings[1..];
          assert Spells(items, strings) <==> items[0] == Str(strings[0]) && Spells(items[1..], strings[1..]);
        }
      }
    }
  }

  lemma {:induction false} ListExactly(fields: seq<Field>, name: string)
    ensures forall strings :: StringArray(fields, name) == Success(strings) <==> ListIs(fields, name, strings)
  {
    if Get(fields, name).Some? && Get(fields, name).value.Arr? {
      StringsExactly(Get(fields, name).value.items, name, 0);
    }
  }

  lemma {:induction false} InsertedPins(pins: seq<Pin>, pin: Pin)
    requires OrderedPins(pins)
    ensures forall p :: p in InsertPin(pins, pin) <==> p == pin || (p in pins && p.path != pin.path)
  {
    if pins != [] {
      var rest := pins[1..];
      InsertedPins(rest, pin);
      assert pins == [pins[0]] + rest;
      forall i | 0 < i < |pins| ensures pins[i].path != pins[0].path {
        LessIrreflexive(pins[0].path);
      }
      if pins[0].path != pin.path && Less(pin.path, pins[0].path) {
        forall i | 0 <= i < |pins| ensures pins[i].path != pin.path {
          LessIrreflexive(pin.path);
          if i > 0 {
            LessTransitive(pin.path, pins[0].path, pins[i].path);
          }
        }
      }
    }
  }

  lemma {:induction false} LastSaysSplit(entries: seq<Field>, path: string, revision: string)
    requires entries != []
    ensures LastSays(entries, path, revision) <==>
            || LastSays(entries[1..], path, revision)
            || (entries[0] == Field(path, Str(revision)) && forall j | 0 < j < |entries| :: entries[j].name != path)
  {
    var rest := entries[1..];
    if LastSays(rest, path, revision) {
      var i :| 0 <= i < |rest| && rest[i] == Field(path, Str(revision)) &&
          forall j | i < j < |rest| :: rest[j].name != path;
      assert entries[i + 1] == Field(path, Str(revision));
      assert forall j | i + 1 < j < |entries| :: entries[j] == rest[j - 1];
    }
    if LastSays(entries, path, revision) {
      var i :| 0 <= i < |entries| && entries[i] == Field(path, Str(revision)) &&
          forall j | i < j < |entries| :: entries[j].name != path;
      if i > 0 {
        assert rest[i - 1] == entries[i] && forall j | i - 1 < j < |rest| :: rest[j] == entries[j + 1];
      }
    }
  }

  /** What folding more revisions in comes to: the last word on each path named, the rest as before. */
  lemma {:induction false} PinsExactly(entries: seq<Field>, out: seq<Pin>)
    requires OrderedPins(out)
    ensures Pins(entries, out).Success? <==> AllText(entries)
    ensures Pins(entries, out).Success? ==>
              forall path, revision :: Pin(path, revision) in Pins(entries, out).value <==>
                || LastSays(entries, path, revision)
                || (Pin(path, revision) in out && forall j | 0 <= j < |entries| :: entries[j].name != path)
  {
    if entries != [] && entries[0].value.Str? {
      var first := Pin(entries[0].name, entries[0].value.text);
      InsertPinOrdered(out, first);
      InsertedPins(out, first);
      var rest, next := entries[1..], InsertPin(out, first);
      PinsExactly(rest, next);
      assert AllText(entries) <==> AllText(rest);
      if AllText(rest) {
        forall path, revision
          ensures Pin(path, revision) in Pins(entries, out).value <==>
                  || LastSays(entries, path, revision)
                  || (Pin(path, revision) in out && forall j | 0 <= j < |entries| :: entries[j].name != path)
        {
          LastSaysSplit(entries, path, revision);
          assert (forall j | 0 <= j < |rest| :: rest[j].name != path) <==>
                 forall j | 0 < j < |entries| :: entries[j].name != path;
        }
      }
    }
  }

  /** Revisions in path order are known by which there are. */
  lemma {:induction false} OnePinList(a: seq<Pin>, b: seq<Pin>)
    requires OrderedPins(a) && OrderedPins(b) && forall p :: p in a <==> p in b
    ensures a == b
  {
    FirstIn(a);
    FirstIn(b);
    if a != [] && b != [] {
      LeastPin(a, b[0]);
      LeastPin(b, a[0]);
      LessFacts(a[0].path, b[0].path, a[0].path);
      assert a[0] == b[0];
      forall p ensures p in a[1..] <==> p in b[1..] {
        TailPin(a, p);
        TailPin(b, p);
      }
      OnePinList(a[1..], b[1..]);
      assert a == [a[0]] + a[1..] && b == [b[0]] + b[1..];
    }
  }

  lemma {:induction false} FirstIn(pins: seq<Pin>)
    ensures pins != [] ==> pins[0] in pins
  {
  }

  lemma {:induction false} LeastPin(pins: seq<Pin>, p: Pin)
    requires OrderedPins(pins) && p in pins
    ensures p == pins[0] || Less(pins[0].path, p.path)
  {
  }

  lemma {:induction false} TailPin(pins: seq<Pin>, p: Pin)
    requires OrderedPins(pins) && pins != []
    ensures p in pins[1..] <==> p in pins && p != pins[0]
  {
    LessIrreflexive(pins[0].path);
    assert forall i | 0 < i < |pins| :: Less(pins[0].path, pins[i].path) && pins[i] == pins[1..][i - 1];
  }

  lemma {:induction false} SamePins(entries: seq<Field>, a: seq<Pin>, b: seq<Pin>)
    requires OrderedPins(a) && OrderedPins(b) && PinnedBy(entries, a) && PinnedBy(entries, b)
    ensures a == b
  {
    forall p: Pin ensures p in a <==> p in b {
      assert p == Pin(p.path, p.revision);
    }
    OnePinList(a, b);
  }

  lemma {:induction false} RevisionsExactly(fields: seq<Field>)
    ensures forall pins :: DecodePins(fields) == Success(pins) <==> PinsAre(fields, pins)
  {
    if Get(fields, "base_revisions").Some? && Get(fields, "base_revisions").value.Obj? {
      var entries := Get(fields, "base_revisions").value.fields;
      PinsExactly(entries, []);
      if AllText(entries) {
        DecodedPins(entries, []);
        var out := Pins(entries, []).value;
        assert PinnedBy(entries, out);
        forall pins | PinsAre(fields, pins) ensures pins == out {
          SamePins(entries, pins, out);
        }
      }
    }
  }

  lemma {:induction false} IdsExactly(id: string)
    ensures IsValidOpId(id) <==> GoodId(id)
  {
  }

  lemma {:induction false} OpExactly(raw: Json, index: nat, seen: seq<string>)
    ensures forall op :: DecodeOp(raw, index, seen) == Success(op) <==> OpIs(raw, index, op) && op.id !in seen
  {
    if raw.Obj? {
      forall id ensures IsValidOpId(id) <==> GoodId(id) {
        IdsExactly(id);
      }
    }
  }

  ghost predicate OpsFrom(raw: seq<Json>, index: nat, seen: seq<string>, ops: seq<Op>) {
    && |ops| == |raw|
    && (forall i | 0 <= i < |raw| :: OpIs(raw[i], index + i, ops[i]) && ops[i].id !in seen)
    && forall i, j | 0 <= i < j < |ops| :: ops[i].id != ops[j].id
  }

  lemma {:induction false} OpsFromSplit(raw: seq<Json>, index: nat, seen: seq<string>, ops: seq<Op>)
    requires raw != [] && ops != []
    ensures OpsFrom(raw, index, seen, ops) <==>
            && OpIs(raw[0], index, ops[0]) && ops[0].id !in seen
            && OpsFrom(raw[1..], index + 1, seen + [ops[0].id], ops[1..])
  {
    hide OpIs;
    var id := ops[0].id;
    if OpsFrom(raw, index, seen, ops) {
      forall i | 0 <= i < |raw| - 1
        ensures OpIs(raw[1..][i], index + 1 + i, ops[1..][i]) && ops[1..][i].id !in seen + [id]
      {
        assert OpIs(raw[i + 1], index + (i + 1), ops[i + 1]) && ops[0].id != ops[i + 1].id;
      }
    }
    if OpIs(raw[0], index, ops[0]) && id !in seen && OpsFrom(raw[1..], index + 1, seen + [id], ops[1..]) {
      forall i | 0 < i < |raw| ensures OpIs(raw[i], index + i, ops[i]) && ops[i].id !in seen && ops[i].id != id {
        assert OpIs(raw[1..][i - 1], index + 1 + (i - 1), ops[1..][i - 1]);
        assert ops[1..][i - 1].id !in seen + [id];
        assert id in seen + [id];
      }
      forall i, j | 0 < i < j < |ops| ensures ops[i].id != ops[j].id {
        assert ops[1..][i - 1].id != ops[1..][j - 1].id;
      }
    }
  }

  lemma {:induction false} OpsExactly(raw: seq<Json>, index: nat, seen: seq<string>)
    ensures forall ops :: DecodeOps(raw, index, seen) == Success(ops) <==> OpsFrom(raw, index, seen, ops)
  {
    hide OpsFrom, DecodeOp, OpIs;
    if raw == [] {
      NoOps(index, seen);
    } else {
      OpExactly(raw[0], index, seen);
      match DecodeOp(raw[0], index, seen)
      case Success(op) =>
        OpsExactly(raw[1..], index + 1, seen + [op.id]);
        forall ops ensures DecodeOps(raw, index, seen) == Success(ops) <==> OpsFrom(raw, index, seen, ops) {
          OpsCounted(raw, index, seen, ops);
          if ops != [] {
            OpsFromSplit(raw, index, seen, ops);
            assert ops == [ops[0]] + ops[1..];
          }
        }
      case Failure(_) =>
        forall ops ensures !OpsFrom(raw, index, seen, ops) {
          OpsCounted(raw, index, seen, ops);
          if ops != [] {
            OpsFromSplit(raw, index, seen, ops);
          }
        }
    }
  }

  lemma {:induction false} NoOps(index: nat, seen: seq<string>)
    ensures DecodeOps([], index, seen) == Success([])
    ensures forall ops :: OpsFrom([], index, seen, ops) <==> ops == []
  {
  }

  lemma {:induction false} OpsCounted(raw: seq<Json>, index: nat, seen: seq<string>, ops: seq<Op>)
    ensures OpsFrom(raw, index, seen, ops) ==> |ops| == |raw|
  {
  }

  lemma {:induction false} RawOpsExactly(fields: seq<Field>)
    ensures forall ops ::
              OpsAre(fields, ops) <==> RawOps(fields).Success? && DecodeOps(RawOps(fields).value, 0, []) == Success(ops)
  {
    hide OpIs;
    if RawOps(fields).Success? {
      var items := RawOps(fields).value;
      OpsExactly(items, 0, []);
      forall ops ensures OpsAre(fields, ops) <==> OpsFrom(items, 0, [], ops) {
        assert ListsOps(items, ops) <==>
            |items| == |ops| && forall i | 0 <= i < |items| :: OpIs(items[i], 0 + i, ops[i]);
      }
    }
  }

  /** A document is read as a plan exactly when its fields mean that plan. */
  lemma {:induction false} DecodeExactly(value: Json, plan: Plan)
    ensures Decode(value) == Success(plan) <==> value.Obj? && PlanIs(value.fields, plan)
  {
    hide VersionIs, PlanIdIs, ListIs, PinsAre, DefaultsAre, PolicyIs, OpsAre;
    hide DecodeVersion, StringArray, DecodePins, DecodeDefaults, DecodePolicy, DecodeOps, RawOps, OptionalStr;
    if value.Obj? {
      var fields := value.fields;
      VersionExactly(fields);
      PlanIdExactly(fields);
      ListExactly(fields, "documents");
      ListExactly(fields, "constraints");
      ListExactly(fields, "validators");
      RevisionsExactly(fields);
      DefaultsExactly(fields);
      PolicyExactly(fields);
      RawOpsExactly(fields);
    }
  }

  lemma {:induction false} PlanIdExactly(fields: seq<Field>)
    ensures var given := OptionalStr(fields, "plan_id");
            forall id :: PlanIdIs(fields, id) <==>
              given.Success? && id == if given.value.Some? then given.value.value else ""
  {
  }

  lemma {:induction false} DefaultsExactly(fields: seq<Field>)
    ensures forall defaults :: DecodeDefaults(fields) == Success(defaults) <==> DefaultsAre(fields, defaults)
  {
  }

  // ----- what a refusal says -----

  /** A field is given, but as something other than `fits` allows. */
  ghost predicate Misfits(fields: seq<Field>, name: string, fits: Json -> bool) {
    !Absent(fields, name) && !fits(Get(fields, name).value)
  }

  /** Entry `i` of the array `name` is no string. */
  ghost predicate NoString(fields: seq<Field>, name: string, i: nat) {
    var v := Get(fields, name);
    v.Some? && v.value.Arr? && i < |v.value.items| && !v.value.items[i].Str?
  }

  ghost predicate ListFault(fields: seq<Field>, name: string, field: string, expected: string) {
    || (field == name && expected == "an array of strings" && Misfits(fields, name, (v: Json) => v.Arr?))
    || (expected == "a string" &&
        exists i: nat :: field == name + "[" + Decimal(i) + "]" && NoString(fields, name, i))
  }

  /** Revision `i` is no string. */
  ghost predicate NoRevision(fields: seq<Field>, i: nat, path: string) {
    var v := Get(fields, "base_revisions");
    v.Some? && v.value.Obj? && i < |v.value.fields| && v.value.fields[i].name == path && !v.value.fields[i].value.Str?
  }

  ghost predicate RevisionFault(fields: seq<Field>, field: string, expected: string) {
    || (field == "base_revisions" && expected == "an object of path -> revision" &&
        Misfits(fields, "base_revisions", (v: Json) => v.Obj?))
    || (expected == "a revision string" &&
        exists i: nat, path :: field == "base_revisions." + path && NoRevision(fields, i, path))
  }

  ghost predicate IsNumeral(value: Json) {
    value.Number? && exists n: nat :: Numeral(value.numeral, n)
  }

  /** Something is wrong with a field other than the operations. */
  ghost predicate HeadFault(fields: seq<Field>, error: PlanError) {
    match error
    case WrongType(field, expected) =>
      || (field == "ir_version" && expected == "an integer" &&
          !Absent(fields, field) && !IsNumeral(Get(fields, field).value))
      || ((field == "plan_id" || field == "rollback_policy") && expected == "a string" &&
          Misfits(fields, field, (v: Json) => v.Str?))
      || (field == "defaults" && expected == "an object" && Misfits(fields, field, (v: Json) => v.Obj?))
      || ListFault(fields, "documents", field, expected)
      || ListFault(fields, "constraints", field, expected)
      || ListFault(fields, "validators", field, expected)
      || RevisionFault(fields, field, expected)
    case UnsupportedVersion(n) =>
      && n != 1
      && exists numeral :: Get(fields, "ir_version") == Some(Number(numeral)) && Numeral(numeral, n)
    case UnknownPolicy(s) =>
      && Get(fields, "rollback_policy") == Some(Str(s)) && !SaysUnset(s)
      && s != "atomic" && s != "stop_on_error" && s != "continue"
    case _ => false
  }

  /** Something is wrong with the list of operations as such. */
  ghost predicate ListOfOpsFault(fields: seq<Field>, error: PlanError) {
    match Get(fields, "ops")
    case None => error == Missing("ops")
    case Some(Arr(items)) => items == [] && error == Empty
    case Some(_) => error == WrongType("ops", "an array of operations")
  }

  function Place(index: nat): string {
    "ops[" + Decimal(index) + "]"
  }

  /** Something is wrong with the operation at `index`. */
  ghost predicate OpFault(item: Json, index: nat, error: PlanError) {
    match error
    case WrongType(field, expected) =>
      || (field == Place(index) && expected == "an object" && !item.Obj?)
      || (field == Place(index) + ".id" && expected == "a string" && item.Obj? &&
          Misfits(item.fields, "id", (v: Json) => v.Str?))
      || (field == Place(index) + ".with" && expected == "an object" && item.Obj? &&
          Misfits(item.fields, "with", (v: Json) => v.Obj?))
    case Missing(field) =>
      && field == Place(index) + ".op" && item.Obj?
      && (Get(item.fields, "op") == None || !Get(item.fields, "op").value.Str?)
    case BadOpId(id) => item.Obj? && IdIs(item.fields, index, id) && !GoodId(id)
    case DuplicateOpId(id) => item.Obj? && IdIs(item.fields, index, id)
    case _ => false
  }

  ghost predicate HasId(item: Json, index: nat, id: string) {
    item.Obj? && IdIs(item.fields, index, id)
  }

  /** Operation `i` is at fault; a duplicate is of the id of an operation before it. */
  ghost predicate FaultAt(items: seq<Json>, i: nat, error: PlanError) {
    && i < |items| && OpFault(items[i], i, error)
    && (error.DuplicateOpId? ==> exists j | 0 <= j < i :: HasId(items[j], j, error.id))
  }

  ghost predicate SomeOpFault(fields: seq<Field>, error: PlanError) {
    exists items, i: nat :: Get(fields, "ops") == Some(Arr(items)) && FaultAt(items, i, error)
  }

  lemma {:induction false} StringsError(items: seq<Json>, name: string, index: nat) returns (i: nat)
    requires Strings(items, name, index).Failure?
    ensures i < |items| && !items[i].Str?
    ensures Strings(items, name, index) == Failure(WrongType(name + "[" + Decimal(index + i) + "]", "a string"))
  {
    if items[0].Str? {
      i := StringsError(items[1..], name, index + 1);
      i := i + 1;
    } else {
      i := 0;
      assert At(name, index) == name + "[" + Decimal(index) + "]";
    }
  }

  lemma {:induction false} ListError(fields: seq<Field>, name: string)
    requires StringArray(fields, name).Failure?
    ensures var e := StringArray(fields, name).error; e.WrongType? && ListFault(fields, name, e.field, e.expected)
  {
    var v := Get(fields, name).value;
    if v.Arr? {
      var i := StringsError(v.items, name, 0);
      assert NoString(fields, name, i);
    }
  }

  lemma {:induction false} PinsError(entries: seq<Field>, out: seq<Pin>) returns (i: nat)
    requires Pins(entries, out).Failure?
    ensures i < |entries| && !entries[i].value.Str?
    ensures Pins(entries, out) == Failure(WrongType("base_revisions." + entries[i].name, "a revision string"))
  {
    if entries[0].value.Str? {
      i := PinsError(entries[1..], InsertPin(out, Pin(entries[0].name, entries[0].value.text)));
      i := i + 1;
    } else {
      i := 0;
    }
  }

  lemma {:induction false} RevisionError(fields: seq<Field>)
    requires DecodePins(fields).Failure?
    ensures var e := DecodePins(fields).error; e.WrongType? && RevisionFault(fields, e.field, e.expected)
  {
    var v := Get(fields, "base_revisions").value;
    if v.Obj? {
      var i := PinsError(v.fields, []);
      assert NoRevision(fields, i, v.fields[i].name);
    }
  }

  lemma {:induction false} VersionError(fields: seq<Field>)
    requires DecodeVersion(fields).Failure?
    ensures HeadFault(fields, DecodeVersion(fields).error)
  {
    var v := Get(fields, "ir_version").value;
    if AsU64(v).Some? {
      assert Numeral(v.numeral, AsU64(v).value);
    } else {
      assert v.Number? ==> forall n: nat :: !Numeral(v.numeral, n);
    }
  }

  lemma {:induction false} PolicyError(fields: seq<Field>)
    requires DecodePolicy(fields).Failure?
    ensures HeadFault(fields, DecodePolicy(fields).error)
  {
    PolicyExactly(fields);
  }

  lemma {:induction false} HeadError(fields: seq<Field>)
    requires DecodeHead(fields).Failure?
    ensures HeadFault(fields, DecodeHead(fields).error)
  {
    hide DecodeVersion, StringArray, DecodePins, DecodePolicy, ListFault, RevisionFault;
    if DecodeVersion(fields).Failure? {
      VersionError(fields);
    } else if OptionalStr(fields, "plan_id").Success? {
      if StringArray(fields, "documents").Failure? {
        ListError(fields, "documents");
      } else if StringArray(fields, "constraints").Failure? {
        ListError(fields, "constraints");
      } else if StringArray(fields, "validators").Failure? {
        ListError(fields, "validators");
      } else if DecodePins(fields).Failure? {
        RevisionError(fields);
      } else if DecodeDefaults(fields).Success? {
        PolicyError(fields);
      }
    }
  }

  lemma {:induction false} OpError(raw: Json, index: nat, seen: seq<string>)
    requires DecodeOp(raw, index, seen).Failure?
    ensures OpFault(raw, index, DecodeOp(raw, index, seen).error)
    ensures DecodeOp(raw, index, seen).error.DuplicateOpId? ==> DecodeOp(raw, index, seen).error.id in seen
  {
    hide IsValidOpId, GoodId;
    if raw.Obj? && DecodeId(raw.fields, index).Success? {
      IdsExactly(DecodeId(raw.fields, index).value);
    }
  }

  lemma {:induction false} OpsError(items: seq<Json>, index: nat, seen: seq<string>) returns (i: nat)
    requires index <= |items| && DecodeOps(items[index..], index, seen).Failure?
    requires forall id | id in seen :: exists j | 0 <= j < index :: HasId(items[j], j, id)
    ensures FaultAt(items, i, DecodeOps(items[index..], index, seen).error)
    decreases |items| - index
  {
    hide OpFault, DecodeOp, IdIs;
    var item := items[index..][0];
    match DecodeOp(item, index, seen)
    case Failure(_) =>
      OpError(item, index, seen);
      i := index;
    case Success(op) =>
      OpExactly(item, index, seen);
      assert items[index..][1..] == items[index + 1..];
      DecodedId(item, index, op);
      forall id | id in seen + [op.id] ensures exists j | 0 <= j < index + 1 :: HasId(items[j], j, id) {
        if id in seen {
          var j :| 0 <= j < index && HasId(items[j], j, id);
        } else {
          assert HasId(items[index], index, id);
        }
      }
      i := OpsError(items, index + 1, seen + [op.id]);
  }

  lemma {:induction false} DecodedId(item: Json, index: nat, op: Op)
    requires OpIs(item, index, op)
    ensures HasId(item, index, op.id)
  {
  }

  /** Every refusal names something that is wrong with the document. */
  lemma {:induction false} RefusalsAreTrue(value: Json)
    requires Decode(value).Failure?
    ensures var error := Decode(value).error;
            if !value.Obj? then error == NotAnObject
            else HeadFault(value.fields, error) || ListOfOpsFault(value.fields, error) ||
                 SomeOpFault(value.fields, error)
  {
    hide DecodeHead, HeadFault, OpFault;
    if value.Obj? {
      if DecodeHead(value.fields).Failure? {
        HeadError(value.fields);
      } else if RawOps(value.fields).Success? {
        var items := RawOps(value.fields).value;
        assert items[0..] == items;
        var i := OpsError(items, 0, []);
        assert Get(value.fields, "ops") == Some(Arr(items)) && FaultAt(items, i, Decode(value).error);
      }
    }
  }
}
