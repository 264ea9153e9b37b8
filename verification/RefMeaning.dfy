/** What rewriting a whole value preserves: its meaning against any outputs. */
module RefMeaning {
  import opened Wrappers
  import opened Text
  import opened Json
  import opened Refs
  import opened RefLaws

  /** No string anywhere in the value is read with an escape. */
  predicate NoEscapes(value: Json) {
    match value
    case Str(s) => !TakesEscape(s)
    case Arr(items) => forall i | 0 <= i < |items| :: NoEscapes(items[i])
    case Obj(fields) => forall i | 0 <= i < |fields| :: NoEscapes(fields[i].value)
    case _ => true
  }

  /** `value` holds the text `$${` nowhere. */
  predicate NoEscapeText(value: Json) {
    match value
    case Str(s) => !Contains(s, "$${")
    case Arr(items) => forall i | 0 <= i < |items| :: NoEscapeText(items[i])
    case Obj(fields) => forall i | 0 <= i < |fields| :: NoEscapeText(fields[i].value)
    case _ => true
  }

  lemma {:induction false} NoTextNoEscapes(value: Json)
    requires NoEscapeText(value)
    ensures NoEscapes(value)
  {
    match value
    case Str(s) =>
      if TakesEscape(s) {
        EscapeIsWritten(s);
        assert false;
      }
    case Arr(items) =>
      forall i | 0 <= i < |items| ensures NoEscapes(items[i]) {
        NoTextNoEscapes(items[i]);
      }
    case Obj(fields) =>
      forall i | 0 <= i < |fields| ensures NoEscapes(fields[i].value) {
        NoTextNoEscapes(fields[i].value);
      }
    case _ =>
  }

  /** Reading a reference as it stands in the original: by way of the target map. */
  function Via<E>(target: Reference -> Result<string, E>, outputs: Outputs): Reference -> Result<Json, RefError> {
    (r: Reference) =>
      match target(r)
      case Failure(_) => Failure(UnknownOp(Show(r), r.op))
      case Success(op) => Lookup(Reference(op, r.path), outputs)
  }

  function Direct(outputs: Outputs): Reference -> Result<Json, RefError> {
    (r: Reference) => Lookup(r, outputs)
  }

  /** The same value, or a failure of the same kind. */
  predicate SameOutcome<T(==)>(a: Result<T, RefError>, b: Result<T, RefError>) {
    match (a, b)
    case (Success(x), Success(y)) => x == y
    case (Failure(e), Failure(f)) => Code(e) == Code(f)
    case _ => false
  }

  lemma {:induction false} PiecesMean<E>(pieces: seq<Piece>, target: Reference -> Result<string, E>, outputs: Outputs)
    requires RetargetPieces(pieces, target).Success?
    ensures SameOutcome(FillPieces(pieces, Via(target, outputs)),
                        FillPieces(RetargetPieces(pieces, target).value, Direct(outputs)))
  {
    if pieces != [] {
      PiecesMean(pieces[1..], target, outputs);
      var there := RetargetPieces(pieces, target).value;
      assert there[1..] == RetargetPieces(pieces[1..], target).value;
      assert there[0] == match pieces[0] case Text(_) => pieces[0]
                                         case Named(r) => Named(Reference(target(r).value, r.path));
    }
  }

  lemma {:induction false} StringMeans<E(!new)>(s: string, target: Reference -> Result<string, E>, outputs: Outputs)
    requires Targets(target) && !TakesEscape(s) && RewriteString(s, target).Success?
    ensures SameOutcome(ResolveWith(Str(s), Via(target, outputs)),
                        ResolveWith(Str(RewriteString(s, target).value), Direct(outputs)))
  {
    RewriteStringExact(s, target);
    var parsed := Parse(s).value;
    if parsed.Mixed? {
      PiecesMean(parsed.pieces, target, outputs);
    }
  }

  /** Rewriting preserves meaning: against every set of outputs, the rewritten value resolves to
      what the original resolves to when its references are read through the target map. */
  lemma {:induction false} RewriteKeepsMeaning<E(!new)>(
      value: Json, target: Reference -> Result<string, E>, outputs: Outputs)
    requires Targets(target) && NoEscapes(value) && Rewrite(value, target).Success?
    ensures SameOutcome(ResolveWith(value, Via(target, outputs)), Resolve(Rewrite(value, target).value, outputs))
    decreases value, 1
  {
    WithDirect(Rewrite(value, target).value, outputs);
    DirectMeaning(value, target, outputs);
  }

  lemma {:induction false} DirectMeaning<E(!new)>(value: Json, target: Reference -> Result<string, E>, outputs: Outputs)
    requires Targets(target) && NoEscapes(value) && Rewrite(value, target).Success?
    ensures SameOutcome(ResolveWith(value, Via(target, outputs)),
                        ResolveWith(Rewrite(value, target).value, Direct(outputs)))
    decreases value, 0
  {
    match value
    case Str(s) => StringMeans(s, target, outputs);
    case Arr(items) => ItemsMean(items, target, outputs);
    case Obj(fields) => FieldsMean(fields, target, outputs);
    case _ =>
  }

  lemma {:induction false} ItemsMean<E(!new)>(
      items: seq<Json>, target: Reference -> Result<string, E>, outputs: Outputs)
    requires Targets(target) && RewriteItems(items, target).Success?
    requires forall i | 0 <= i < |items| :: NoEscapes(items[i])
    ensures SameOutcome(ResolveItems(items, Via(target, outputs)),
                        ResolveItems(RewriteItems(items, target).value, Direct(outputs)))
    decreases items, 0
  {
    if items != [] {
      DirectMeaning(items[0], target, outputs);
      ItemsMean(items[1..], target, outputs);
      var there := RewriteItems(items, target).value;
      assert there[0] == Rewrite(items[0], target).value && there[1..] == RewriteItems(items[1..], target).value;
    }
  }

  lemma {:induction false} FieldsMean<E(!new)>(
      fields: seq<Field>, target: Reference -> Result<string, E>, outputs: Outputs)
    requires Targets(target) && RewriteFields(fields, target).Success?
    requires forall i | 0 <= i < |fields| :: NoEscapes(fields[i].value)
    ensures SameOutcome(ResolveFields(fields, Via(target, outputs)),
                        ResolveFields(RewriteFields(fields, target).value, Direct(outputs)))
    decreases fields, 0
  {
    if fields != [] {
      DirectMeaning(fields[0].value, target, outputs);
      FieldsMean(fields[1..], target, outputs);
      var there := RewriteFields(fields, target).value;
      assert there[0] == Field(fields[0].name, Rewrite(fields[0].value, target).value);
      assert there[1..] == RewriteFields(fields[1..], target).value;
    }
  }

  /** `after` is `before` with every string read as the original pieces, their targets replaced. */
  ghost predicate ReadsAlike<E>(before: Json, after: Json, target: Reference -> Result<string, E>)
    decreases before
  {
    match (before, after)
    case (Str(s), Str(t)) =>
      && Parse(s).Success? && RetargetParsed(Parse(s).value, target).Success?
      && Parse(t) == Success(RetargetParsed(Parse(s).value, target).value)
    case (Arr(xs), Arr(ys)) => |xs| == |ys| && forall i | 0 <= i < |xs| :: ReadsAlike(xs[i], ys[i], target)
    case (Obj(xs), Obj(ys)) =>
      |xs| == |ys| &&
      forall i | 0 <= i < |xs| :: xs[i].name == ys[i].name && ReadsAlike(xs[i].value, ys[i].value, target)
    case _ => before == after
  }

  /** Which values keep what they say: all of the rewritten value reads as the original with its
      targets replaced if and only if no string in it takes an escape. */
  lemma {:induction false} RewriteValueExact<E(!new)>(value: Json, target: Reference -> Result<string, E>)
    requires Targets(target) && Rewrite(value, target).Success?
    ensures ReadsAlike(value, Rewrite(value, target).value, target) <==> NoEscapes(value)
    decreases value, 0
  {
    match value
    case Str(s) => RewriteStringExact(s, target);
    case Arr(items) => ItemsExact(items, target);
    case Obj(fields) => FieldsExact(fields, target);
    case _ =>
  }

  ghost predicate ItemsAlike<E>(before: seq<Json>, after: seq<Json>, target: Reference -> Result<string, E>) {
    |before| == |after| && forall i | 0 <= i < |before| :: ReadsAlike(before[i], after[i], target)
  }

  ghost predicate FieldsAlike<E>(before: seq<Field>, after: seq<Field>, target: Reference -> Result<string, E>) {
    && |before| == |after|
    && forall i | 0 <= i < |before| ::
         before[i].name == after[i].name && ReadsAlike(before[i].value, after[i].value, target)
  }

  ghost predicate ItemsFree(items: seq<Json>) {
    forall i | 0 <= i < |items| :: NoEscapes(items[i])
  }

  ghost predicate FieldsFree(fields: seq<Field>) {
    forall i | 0 <= i < |fields| :: NoEscapes(fields[i].value)
  }

  lemma {:induction false} ItemsAlikeSplit<E>(
      x: Json, xs: seq<Json>, y: Json, ys: seq<Json>, target: Reference -> Result<string, E>)
    ensures ItemsAlike([x] + xs, [y] + ys, target) <==>
            ReadsAlike(x, y, target) && ItemsAlike(xs, ys, target)
  {
    hide ReadsAlike;
    var one, two := [x] + xs, [y] + ys;
    if ItemsAlike(one, two, target) {
      assert one[0] == x && two[0] == y;
      forall i | 0 <= i < |xs|
        ensures ReadsAlike(xs[i], ys[i], target)
      {
        assert one[i + 1] == xs[i] && two[i + 1] == ys[i];
      }
    }
    if ReadsAlike(x, y, target) && ItemsAlike(xs, ys, target) {
      forall i | 0 <= i < |one|
        ensures ReadsAlike(one[i], two[i], target)
      {
        assert if i == 0 then one[i] == x && two[i] == y else one[i] == xs[i - 1] && two[i] == ys[i - 1];
      }
    }
  }

  lemma {:induction false} ItemsFreeSplit(x: Json, xs: seq<Json>)
    ensures ItemsFree([x] + xs) <==> NoEscapes(x) && ItemsFree(xs)
  {
    hide NoEscapes;
    var one := [x] + xs;
    if ItemsFree(one) {
      assert one[0] == x;
      forall i | 0 <= i < |xs|
        ensures NoEscapes(xs[i])
      {
        assert one[i + 1] == xs[i];
      }
    }
  }

  lemma {:induction false} FieldsAlikeSplit<E>(
      x: Field, xs: seq<Field>, y: Field, ys: seq<Field>, target: Reference -> Result<string, E>)
    ensures FieldsAlike([x] + xs, [y] + ys, target) <==>
            x.name == y.name && ReadsAlike(x.value, y.value, target) && FieldsAlike(xs, ys, target)
  {
    hide ReadsAlike;
    var one, two := [x] + xs, [y] + ys;
    if FieldsAlike(one, two, target) {
      assert one[0] == x && two[0] == y;
      forall i | 0 <= i < |xs|
        ensures xs[i].name == ys[i].name && ReadsAlike(xs[i].value, ys[i].value, target)
      {
        assert one[i + 1] == xs[i] && two[i + 1] == ys[i];
      }
    }
    if x.name == y.name && ReadsAlike(x.value, y.value, target) && FieldsAlike(xs, ys, target) {
      forall i | 0 <= i < |one|
        ensures one[i].name == two[i].name && ReadsAlike(one[i].value, two[i].value, target)
      {
        assert if i == 0 then one[i] == x && two[i] == y else one[i] == xs[i - 1] && two[i] == ys[i - 1];
      }
    }
  }

  lemma {:induction false} FieldsFreeSplit(x: Field, xs: seq<Field>)
    ensures FieldsFree([x] + xs) <==> NoEscapes(x.value) && FieldsFree(xs)
  {
    hide NoEscapes;
    var one := [x] + xs;
    if FieldsFree(one) {
      assert one[0] == x;
      forall i | 0 <= i < |xs|
        ensures NoEscapes(xs[i].value)
      {
        assert one[i + 1] == xs[i];
      }
    }
  }

  lemma {:induction false} ItemsExact<E(!new)>(items: seq<Json>, target: Reference -> Result<string, E>)
    requires Targets(target) && RewriteItems(items, target).Success?
    ensures ItemsAlike(items, RewriteItems(items, target).value, target) <==> ItemsFree(items)
    decreases items, 0
  {
    hide *;
    if items == [] {
      NoItems(target);
    } else {
      ItemsStep(items, target);
      RewriteValueExact(items[0], target);
      ItemsExact(items[1..], target);
      assert items == [items[0]] + items[1..];
      ItemsAlikeSplit(items[0], items[1..], Rewrite(items[0], target).value, RewriteItems(items[1..], target).value,
          target);
      ItemsFreeSplit(items[0], items[1..]);
    }
  }

  lemma {:induction false} FieldsExact<E(!new)>(fields: seq<Field>, target: Reference -> Result<string, E>)
    requires Targets(target) && RewriteFields(fields, target).Success?
    ensures FieldsAlike(fields, RewriteFields(fields, target).value, target) <==> FieldsFree(fields)
    decreases fields, 0
  {
    hide *;
    if fields == [] {
      NoItems(target);
    } else {
      FieldsStep(fields, target);
      var first := fields[0];
      RewriteValueExact(first.value, target);
      FieldsExact(fields[1..], target);
      assert fields == [first] + fields[1..];
      FieldsAlikeSplit(first, fields[1..], Field(first.name, Rewrite(first.value, target).value),
                       RewriteFields(fields[1..], target).value, target);
      FieldsFreeSplit(first, fields[1..]);
    }
  }

  lemma {:induction false} NoItems<E>(target: Reference -> Result<string, E>)
    ensures RewriteItems([], target) == Success([]) && ItemsAlike([], [], target) && ItemsFree([])
    ensures RewriteFields([], target) == Success([]) && FieldsAlike([], [], target) && FieldsFree([])
  {
  }

  lemma {:induction false} ItemsStep<E>(items: seq<Json>, target: Reference -> Result<string, E>)
    requires items != [] && RewriteItems(items, target).Success?
    ensures Rewrite(items[0], target).Success? && RewriteItems(items[1..], target).Success?
    ensures var out := RewriteItems(items, target).value;
            && out == [Rewrite(items[0], target).value] + RewriteItems(items[1..], target).value
            && out[1..] == RewriteItems(items[1..], target).value
  {
  }

  lemma {:induction false} FieldsStep<E>(fields: seq<Field>, target: Reference -> Result<string, E>)
    requires fields != [] && RewriteFields(fields, target).Success?
    ensures Rewrite(fields[0].value, target).Success? && RewriteFields(fields[1..], target).Success?
    ensures var out := RewriteFields(fields, target).value;
            && out == [Field(fields[0].name, Rewrite(fields[0].value, target).value)]
                      + RewriteFields(fields[1..], target).value
            && out[1..] == RewriteFields(fields[1..], target).value
  {
  }

  /** Two lookups that agree everywhere resolve alike. */
  lemma {:induction false} ResolveAgrees(
      value: Json, f: Reference -> Result<Json, RefError>, g: Reference -> Result<Json, RefError>)
    requires forall r: Reference :: f(r) == g(r)
    ensures ResolveWith(value, f) == ResolveWith(value, g)
    decreases value, 0
  {
    match value
    case Str(s) =>
      if Parse(s).Success? && Parse(s).value.Mixed? {
        FillAgrees(Parse(s).value.pieces, f, g);
      }
    case Arr(items) => ItemsAgree(items, f, g);
    case Obj(fields) => FieldsAgree(fields, f, g);
    case _ =>
  }

  lemma {:induction false} FillAgrees(
      pieces: seq<Piece>, f: Reference -> Result<Json, RefError>, g: Reference -> Result<Json, RefError>)
    requires forall r: Reference :: f(r) == g(r)
    ensures FillPieces(pieces, f) == FillPieces(pieces, g)
  {
    if pieces != [] {
      FillAgrees(pieces[1..], f, g);
    }
  }

  lemma {:induction false} ItemsAgree(
      items: seq<Json>, f: Reference -> Result<Json, RefError>, g: Reference -> Result<Json, RefError>)
    requires forall r: Reference :: f(r) == g(r)
    ensures ResolveItems(items, f) == ResolveItems(items, g)
    decreases items, 0
  {
    if items != [] {
      ResolveAgrees(items[0], f, g);
      ItemsAgree(items[1..], f, g);
    }
  }

  lemma {:induction false} FieldsAgree(
      fields: seq<Field>, f: Reference -> Result<Json, RefError>, g: Reference -> Result<Json, RefError>)
    requires forall r: Reference :: f(r) == g(r)
    ensures ResolveFields(fields, f) == ResolveFields(fields, g)
    decreases fields, 0
  {
    if fields != [] {
      ResolveAgrees(fields[0].value, f, g);
      FieldsAgree(fields[1..], f, g);
    }
  }

  lemma {:induction false} WithDirect(value: Json, outputs: Outputs)
    ensures Resolve(value, outputs) == ResolveWith(value, Direct(outputs))
  {
    ResolveAgrees(value, r => Lookup(r, outputs), Direct(outputs));
  }

  // ----- scanning tells what resolving can meet -----

  /** A value that scans never fails to parse at run time, and a reference to an operation with
      no output can only be one the scan reported. */
  lemma {:induction false} ScannedResolves(value: Json, outputs: Outputs)
    requires Scan(value).Success?
    ensures var r := ResolveWith(value, Direct(outputs));
            r.Failure? ==>
              && (r.error.UnknownOp? || r.error.NoSuchPath? || r.error.NotScalar?)
              && (r.error.UnknownOp? ==> exists x | x in Scan(value).value :: x.op !in outputs)
    decreases value, 0
  {
    match value
    case Str(s) =>
      if Parse(s).value.Mixed? {
        ScannedFill(Parse(s).value.pieces, outputs);
      } else if Parse(s).value.Whole? {
        assert Parse(s).value.reference in Scan(value).value;
      }
    case Arr(items) => ScannedItems(items, outputs);
    case Obj(fields) => ScannedFields(fields, outputs);
    case _ =>
  }

  lemma {:induction false} ScannedFill(pieces: seq<Piece>, outputs: Outputs)
    ensures var r := FillPieces(pieces, Direct(outputs));
            r.Failure? ==>
              && (r.error.UnknownOp? || r.error.NoSuchPath? || r.error.NotScalar?)
              && (r.error.UnknownOp? ==> exists x | x in PieceRefs(pieces) :: x.op !in outputs)
  {
    if pieces != [] {
      ScannedFill(pieces[1..], outputs);
      if pieces[0].Named? {
        assert pieces[0].reference in PieceRefs(pieces);
      }
      assert forall x | x in PieceRefs(pieces[1..]) :: x in PieceRefs(pieces);
    }
  }

  lemma {:induction false} ScannedItems(items: seq<Json>, outputs: Outputs)
    requires ScanItems(items).Success?
    ensures var r := ResolveItems(items, Direct(outputs));
            r.Failure? ==>
              && (r.error.UnknownOp? || r.error.NoSuchPath? || r.error.NotScalar?)
              && (r.error.UnknownOp? ==> exists x | x in ScanItems(items).value :: x.op !in outputs)
    decreases items, 0
  {
    if items != [] {
      ScannedResolves(items[0], outputs);
      ScannedItems(items[1..], outputs);
      assert forall x | x in Scan(items[0]).value :: x in ScanItems(items).value;
      assert forall x | x in ScanItems(items[1..]).value :: x in ScanItems(items).value;
    }
  }

  lemma {:induction false} ScannedFields(fields: seq<Field>, outputs: Outputs)
    requires ScanFields(fields).Success?
    ensures var r := ResolveFields(fields, Direct(outputs));
            r.Failure? ==>
              && (r.error.UnknownOp? || r.error.NoSuchPath? || r.error.NotScalar?)
              && (r.error.UnknownOp? ==> exists x | x in ScanFields(fields).value :: x.op !in outputs)
    decreases fields, 0
  {
    if fields != [] {
      ScannedResolves(fields[0].value, outputs);
      ScannedFields(fields[1..], outputs);
      assert forall x | x in Scan(fields[0].value).value :: x in ScanFields(fields).value;
      assert forall x | x in ScanFields(fields[1..]).value :: x in ScanFields(fields).value;
    }
  }

  /** A reference to an operation with no output always stops a value from resolving. */
  lemma {:induction false} MissingStops(value: Json, outputs: Outputs, x: Reference)
    requires Scan(value).Success? && x in Scan(value).value && x.op !in outputs
    ensures ResolveWith(value, Direct(outputs)).Failure?
    decreases value, 0
  {
    match value
    case Str(s) =>
      if Parse(s).value.Mixed? {
        MissingStopsFill(Parse(s).value.pieces, outputs, x);
      }
    case Arr(items) => MissingStopsItems(items, outputs, x);
    case Obj(fields) => MissingStopsFields(fields, outputs, x);
    case _ =>
  }

  lemma {:induction false} MissingStopsFill(pieces: seq<Piece>, outputs: Outputs, x: Reference)
    requires x in PieceRefs(pieces) && x.op !in outputs
    ensures FillPieces(pieces, Direct(outputs)).Failure?
  {
    if !(pieces[0].Named? && pieces[0].reference == x) {
      MissingStopsFill(pieces[1..], outputs, x);
    }
  }

  lemma {:induction false} MissingStopsItems(items: seq<Json>, outputs: Outputs, x: Reference)
    requires ScanItems(items).Success? && x in ScanItems(items).value && x.op !in outputs
    ensures ResolveItems(items, Direct(outputs)).Failure?
    decreases items, 0
  {
    if x in Scan(items[0]).value {
      MissingStops(items[0], outputs, x);
    } else {
      MissingStopsItems(items[1..], outputs, x);
    }
  }

  lemma {:induction false} MissingStopsFields(fields: seq<Field>, outputs: Outputs, x: Reference)
    requires ScanFields(fields).Success? && x in ScanFields(fields).value && x.op !in outputs
    ensures ResolveFields(fields, Direct(outputs)).Failure?
    decreases fields, 0
  {
    if x in Scan(fields[0].value).value {
      MissingStops(fields[0].value, outputs, x);
    } else {
      MissingStopsFields(fields[1..], outputs, x);
    }
  }

  // ----- values with no references -----

  /** A value with no references resolves to itself exactly when it holds no escape. */
  lemma {:induction false} PlainResolves(value: Json, outputs: Outputs)
    requires Scan(value) == Success([])
    ensures ResolveWith(value, Direct(outputs)).Success?
    ensures ResolveWith(value, Direct(outputs)) == Success(value) <==> NoEscapes(value)
    decreases value, 0
  {
    match value
    case Str(s) => PlainString(s, outputs);
    case Arr(items) => PlainItems(items, outputs);
    case Obj(fields) => PlainFields(fields, outputs);
    case _ =>
  }

  lemma {:induction false} PlainItems(items: seq<Json>, outputs: Outputs)
    requires ScanItems(items) == Success([])
    ensures ResolveItems(items, Direct(outputs)).Success?
    ensures ResolveItems(items, Direct(outputs)) == Success(items) <==>
              forall i | 0 <= i < |items| :: NoEscapes(items[i])
    decreases items, 0
  {
    if items != [] {
      assert Scan(items[0]).value == [] && ScanItems(items[1..]).value == [];
      PlainResolves(items[0], outputs);
      PlainItems(items[1..], outputs);
      var out := ResolveItems(items, Direct(outputs)).value;
      assert items == [items[0]] + items[1..];
      assert out[0] == ResolveWith(items[0], Direct(outputs)).value;
      assert out[1..] == ResolveItems(items[1..], Direct(outputs)).value;
      assert (forall i | 0 <= i < |items| :: NoEscapes(items[i])) <==>
             NoEscapes(items[0]) && forall i | 0 <= i < |items[1..]| :: NoEscapes(items[1..][i]);
    }
  }

  lemma {:induction false} PlainFields(fields: seq<Field>, outputs: Outputs)
    requires ScanFields(fields) == Success([])
    ensures ResolveFields(fields, Direct(outputs)).Success?
    ensures ResolveFields(fields, Direct(outputs)) == Success(fields)
            <==> forall i | 0 <= i < |fields| :: NoEscapes(fields[i].value)
    decreases fields, 0
  {
    if fields != [] {
      assert Scan(fields[0].value).value == [] && ScanFields(fields[1..]).value == [];
      PlainResolves(fields[0].value, outputs);
      PlainFields(fields[1..], outputs);
      var out := ResolveFields(fields, Direct(outputs)).value;
      assert fields == [fields[0]] + fields[1..];
      assert out[0] == Field(fields[0].name, ResolveWith(fields[0].value, Direct(outputs)).value);
      assert out[1..] == ResolveFields(fields[1..], Direct(outputs)).value;
      assert (forall i | 0 <= i < |fields| :: NoEscapes(fields[i].value)) <==>
             NoEscapes(fields[0].value) && forall i | 0 <= i < |fields[1..]| :: NoEscapes(fields[1..][i].value);
    }
  }

  lemma {:induction false} PlainString(s: string, outputs: Outputs)
    requires Scan(Str(s)) == Success([])
    ensures ResolveWith(Str(s), Direct(outputs)).Success?
    ensures ResolveWith(Str(s), Direct(outputs)) == Success(Str(s)) <==> !TakesEscape(s)
  {
    var tokens := Tokens(s, s).value;
    RefsOfGroup("", tokens);
    assert PieceRefs(Group("", tokens)) == [] by {
      var pieces := Group("", tokens);
      if |pieces| == 1 {
        assert PieceRefs(pieces[1..]) == [];
      }
    }
    OnlyText("", tokens);
    PlainSuffix(s, s);
    assert "" + Print(tokens) == Print(tokens);
  }

  lemma {:induction false} RefsOfGroup(literal: string, tokens: seq<Token>)
    ensures PieceRefs(Group(literal, tokens)) == [] <==> forall t | t in tokens :: t.Chr?
    decreases |tokens|
  {
    if tokens != [] {
      assert tokens[0] in tokens && forall t | t in tokens[1..] :: t in tokens;
      assert forall t | t in tokens :: t == tokens[0] || t in tokens[1..];
      match tokens[0] {
        case Chr(c) => RefsOfGroup(literal + [c], tokens[1..]);
        case Ref(r) => RefsFlushed(literal, r, Group("", tokens[1..]));
      }
    }
  }

  lemma {:induction false} RefsFlushed(literal: string, r: Reference, tail: seq<Piece>)
    ensures PieceRefs(Flush(literal) + [Named(r)] + tail) == [r] + PieceRefs(tail)
  {
    var pieces := [Named(r)] + tail;
    assert pieces[1..] == tail;
    assert Flush(literal) + [Named(r)] + tail == Flush(literal) + pieces;
    if literal == "" {
      assert Flush(literal) + pieces == pieces;
    } else {
      assert (Flush(literal) + pieces)[1..] == pieces;
    }
  }

  lemma {:induction false} OnlyText(literal: string, tokens: seq<Token>)
    requires forall t | t in tokens :: t.Chr?
    ensures Classify(Group(literal, tokens)) == Literal(literal + Print(tokens))
    decreases |tokens|
  {
    if tokens == [] {
      assert literal + "" == literal;
    } else {
      assert tokens[0] in tokens && forall t | t in tokens[1..] :: t in tokens;
      OnlyText(literal + [tokens[0].c], tokens[1..]);
      assert Print(tokens) == [tokens[0].c] + Print(tokens[1..]);
      ConcatAssoc(literal, [tokens[0].c], Print(tokens[1..]));
    }
  }

  /** With only character tokens, printing gives the string back exactly when no escape was consumed. */
  lemma {:induction false} PlainSuffix(whole: string, s: string)
    requires Tokens(whole, s).Success? && forall t | t in Tokens(whole, s).value :: t.Chr?
    ensures Print(Tokens(whole, s).value) == s <==> !TakesEscape(s)
  {
    PrintShrinks(whole, s);
    if s != "" && !StartsEscape(s) {
      var tokens := Tokens(whole, s).value;
      assert tokens[0] in tokens && tokens[0].Chr?;
      assert tokens[1..] == Tokens(whole, s[1..]).value;
      assert forall t | t in tokens[1..] :: t in tokens;
      PlainSuffix(whole, s[1..]);
      assert s == [s[0]] + s[1..];
      assert Print(tokens) == [s[0]] + Print(tokens[1..]);
      assert Print(tokens)[1..] == Print(tokens[1..]);
    }
  }
}
