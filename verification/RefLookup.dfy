/** What a reference finds and how a string fills in, told over the values themselves. */
module RefLookup {
  import opened Wrappers
  import opened Text
  import opened Json
  import opened Refs
  import opened RefLaws
  import opened RefMeaning

  // ----- what can stand before the first dot -----

  /** `ops[`, a 64-bit number and `]`. */
  ghost predicate WritesPosition(target: string, n: nat) {
    && n < 0x1_0000_0000_0000_0000
    && exists digits ::
         target == "ops[" + digits + "]" && digits != "" && AllDigits(digits) && DecimalValue(digits) == n
  }

  lemma {:induction false} PositionExactly(target: string, n: nat)
    ensures PositionTarget(target) == Some(n) <==> WritesPosition(target, n)
  {
    if StartsWith(target, "ops[") && |target| >= 5 && target[|target| - 1] == ']' {
      var digits := target[4..|target| - 1];
      assert target == target[..4] + digits + [target[|target| - 1]];
      assert target == "ops[" + digits + "]";
    }
    if WritesPosition(target, n) {
      var digits :| target == "ops[" + digits + "]" && digits != "" && AllDigits(digits) && DecimalValue(digits) == n;
      assert target[..4] == "ops[" && target[4..|target| - 1] == digits;
    }
  }

  /** A target is an id, or a step's id, or a position: ASCII letters, digits, `_`, `-` and `/`, at least
      one of them, or the form above. */
  lemma {:induction false} TargetExactly(target: string)
    ensures IsTarget(target) <==>
            || (exists n: nat :: WritesPosition(target, n))
            || (target != "" && forall i | 0 <= i < |target| ::
                  || 'a' <= target[i] <= 'z' || 'A' <= target[i] <= 'Z' || '0' <= target[i] <= '9'
                  || target[i] == '_' || target[i] == '-' || target[i] == '/')
  {
    if PositionTarget(target).Some? {
      PositionExactly(target, PositionTarget(target).value);
    }
    if n: nat :| WritesPosition(target, n) {
      PositionExactly(target, n);
    }
  }

  // ----- where a segment leads -----

  /** `found` is the value of the first field called `name`. */
  ghost predicate FieldIs(fields: seq<Field>, name: string, found: Json) {
    exists i | 0 <= i < |fields| ::
      fields[i] == Field(name, found) && forall j | 0 <= j < i :: fields[j].name != name
  }

  /** `found` stands in `value` at `segment`: under a key of an object, at a position of an array,
      or, for a number against an object, under the key that is its decimal. */
  ghost predicate Leads(value: Json, segment: Segment, found: Json) {
    match segment
    case Key(k) => value.Obj? && FieldIs(value.fields, k, found)
    case Index(n) =>
      || (value.Arr? && n < |value.items| && value.items[n] == found)
      || (value.Obj? && FieldIs(value.fields, Decimal(n), found))
  }

  /** The values met on the way from `value` along `path`, one per segment. */
  ghost predicate Trail(value: Json, path: seq<Segment>, met: seq<Json>) {
    && |met| == |path| + 1 && met[0] == value
    && forall i | 0 <= i < |path| :: Leads(met[i], path[i], met[i + 1])
  }

  ghost predicate Finds(value: Json, path: seq<Segment>, found: Json) {
    exists met :: Trail(value, path, met) && met[|path|] == found
  }

  lemma {:induction false} GetIsFirst(fields: seq<Field>, name: string, found: Json)
    ensures Get(fields, name) == Some(found) <==> FieldIs(fields, name, found)
  {
    if fields != [] {
      GetIsFirst(fields[1..], name, found);
      var head, rest := fields[0], fields[1..];
      if head.name == name {
        assert FieldIs(fields, name, found) ==> found == head.value;
        assert found == head.value ==> fields[0] == Field(name, found);
      } else {
        if FieldIs(rest, name, found) {
          var i :| 0 <= i < |rest| && rest[i] == Field(name, found) && forall j | 0 <= j < i :: rest[j].name != name;
          assert forall j | 1 <= j < i + 1 :: fields[j] == rest[j - 1];
          assert fields[i + 1] == Field(name, found);
        }
        if FieldIs(fields, name, found) {
          var i :| 0 <= i < |fields| && fields[i] == Field(name, found) &&
              forall j | 0 <= j < i :: fields[j].name != name;
          assert rest[i - 1] == Field(name, found) && forall j | 0 <= j < i - 1 :: rest[j] == fields[j + 1];
        }
      }
    }
  }

  lemma {:induction false} StepLeads(value: Json, segment: Segment, found: Json)
    ensures Step(value, segment) == Some(found) <==> Leads(value, segment, found)
  {
    if value.Obj? {
      GetIsFirst(value.fields, SegmentText(segment), found);
    }
  }

  lemma {:induction false} WalkFinds(value: Json, path: seq<Segment>, found: Json)
    ensures Walk(value, path) == Some(found) <==> Finds(value, path, found)
    decreases |path|
  {
    if path == [] {
      assert Trail(value, path, [value]);
    } else {
      var next := Step(value, path[0]);
      if next.Some? {
        StepLeads(value, path[0], next.value);
        WalkFinds(next.value, path[1..], found);
        if Finds(next.value, path[1..], found) {
          var met :| Trail(next.value, path[1..], met) && met[|path| - 1] == found;
          LongerTrail(value, path, met);
        }
      }
      if Finds(value, path, found) {
        var met :| Trail(value, path, met) && met[|path|] == found;
        assert Leads(met[0], path[0], met[1]);
        StepLeads(value, path[0], met[1]);
        ShorterTrail(value, path, met);
        assert met[1..][|path| - 1] == found;
      }
    }
  }

  lemma {:induction false} LongerTrail(value: Json, path: seq<Segment>, met: seq<Json>)
    requires path != [] && met != [] && Leads(value, path[0], met[0]) && Trail(met[0], path[1..], met)
    ensures Trail(value, path, [value] + met)
  {
    var all := [value] + met;
    forall i | 0 <= i < |path| ensures Leads(all[i], path[i], all[i + 1]) {
      if i > 0 {
        assert Leads(met[i - 1], path[1..][i - 1], met[i]);
      }
    }
  }

  lemma {:induction false} ShorterTrail(value: Json, path: seq<Segment>, met: seq<Json>)
    requires path != [] && Trail(value, path, met)
    ensures Trail(met[1], path[1..], met[1..])
  {
    forall i | 0 <= i < |path| - 1 ensures Leads(met[1..][i], path[1..][i], met[1..][i + 1]) {
      assert Leads(met[i + 1], path[i + 1], met[i + 2]);
    }
  }

  /** A reference finds the value at the end of its path from its operation's output; failing that,
      it says whether the operation or the path is missing. */
  lemma {:induction false} LookupExactly(reference: Reference, outputs: Outputs)
    ensures forall v :: Lookup(reference, outputs) == Success(v) <==>
              reference.op in outputs && Finds(outputs[reference.op], reference.path, v)
    ensures reference.op !in outputs ==>
              Lookup(reference, outputs) == Failure(UnknownOp(Show(reference), reference.op))
    ensures reference.op in outputs && (forall v :: !Finds(outputs[reference.op], reference.path, v)) ==>
              Lookup(reference, outputs) == Failure(NoSuchPath(Show(reference)))
  {
    if reference.op in outputs {
      forall v ensures Walk(outputs[reference.op], reference.path) == Some(v) <==>
                       Finds(outputs[reference.op], reference.path, v)
      {
        WalkFinds(outputs[reference.op], reference.path, v);
      }
    }
  }

  /** Replacing one element of an array changes what its own index finds and nothing else. */
  lemma {:induction false} IndexFindsItsElement(op: string, items: seq<Json>, i: nat, v: Json, j: nat)
    requires i < |items|
    ensures var reference := Reference(op, [Index(j)]);
            Lookup(reference, map[op := Arr(items[i := v])]) ==
            if j == i then Success(v) else Lookup(reference, map[op := Arr(items)])
    ensures j >= |items| ==> Lookup(Reference(op, [Index(j)]), map[op := Arr(items)]).Failure?
  {
    LookupOne(op, Arr(items), Index(j));
    LookupOne(op, Arr(items[i := v]), Index(j));
  }

  lemma {:induction false} LookupOne(op: string, value: Json, segment: Segment)
    ensures Lookup(Reference(op, [segment]), map[op := value]) ==
            match Step(value, segment)
            case None => Failure(NoSuchPath(Show(Reference(op, [segment]))))
            case Some(found) => Success(found)
  {
    assert [segment][1..] == [];
    if Step(value, segment).Some? {
      assert Walk(Step(value, segment).value, []) == Some(Step(value, segment).value);
    }
  }

  /** A path in two parts: the second is looked up in what the first finds. */
  lemma {:induction false} LookupInTwo(op: string, front: seq<Segment>, back: seq<Segment>, outputs: Outputs)
    ensures var first := Lookup(Reference(op, front), outputs);
            var whole := Lookup(Reference(op, front + back), outputs);
            && (first.Failure? ==> whole.Failure?)
            && (first.Success? ==>
                  var second := Lookup(Reference(op, back), outputs[op := first.value]);
                  && (whole.Success? <==> second.Success?)
                  && (whole.Success? ==> whole == second))
  {
    if op in outputs {
      WalkInTwo(outputs[op], front, back);
    }
  }

  lemma {:induction false} WalkInTwo(value: Json, front: seq<Segment>, back: seq<Segment>)
    ensures Walk(value, front + back) ==
            match Walk(value, front) case None => None case Some(next) => Walk(next, back)
    decreases |front|
  {
    if front == [] {
      assert front + back == back;
    } else {
      assert (front + back)[1..] == front[1..] + back;
      if Step(value, front[0]).Some? {
        WalkInTwo(Step(value, front[0]).value, front[1..], back);
      }
    }
  }

  // ----- text with references in it -----

  /** How JSON writes a scalar; a string inside a larger string loses its quotes. */
  ghost predicate Writes(value: Json, text: string) {
    || value == Str(text)
    || value == Number(text)
    || (value == Null && text == "null")
    || (value == Bool(true) && text == "true")
    || (value == Bool(false) && text == "false")
  }

  /** What one piece of a mixed string comes to. */
  ghost predicate Comes(piece: Piece, outputs: Outputs, text: string) {
    match piece
    case Text(t) => text == t
    case Named(r) => exists v :: Lookup(r, outputs) == Success(v) && Writes(v, text)
  }

  function Concat(texts: seq<string>): string {
    if texts == [] then "" else texts[0] + Concat(texts[1..])
  }

  ghost predicate Comprises(pieces: seq<Piece>, outputs: Outputs, texts: seq<string>) {
    |texts| == |pieces| && forall i | 0 <= i < |pieces| :: Comes(pieces[i], outputs, texts[i])
  }

  /** Why one piece of a mixed string has no text: nothing is found, or what is found is composite. */
  ghost predicate Stops(piece: Piece, outputs: Outputs, error: RefError) {
    && piece.Named?
    && match Lookup(piece.reference, outputs)
       case Failure(e) => error == e
       case Success(v) => (v.Arr? || v.Obj?) && error == NotScalar(Show(piece.reference))
  }

  ghost predicate HasText(piece: Piece, outputs: Outputs) {
    exists text :: Comes(piece, outputs, text)
  }

  /** The first piece that stops is `k`. */
  ghost predicate StopsAt(pieces: seq<Piece>, outputs: Outputs, k: nat, error: RefError) {
    && k < |pieces| && Stops(pieces[k], outputs, error)
    && forall j | 0 <= j < k :: HasText(pieces[j], outputs)
  }

  lemma {:induction false} WritesScalars(value: Json)
    ensures forall text :: ScalarText(value) == Some(text) <==> Writes(value, text)
    ensures ScalarText(value).None? <==> value.Arr? || value.Obj?
  {
  }

  lemma {:induction false} Filled(pieces: seq<Piece>, outputs: Outputs, texts: seq<string>)
    requires Comprises(pieces, outputs, texts)
    ensures FillPieces(pieces, Direct(outputs)) == Success(Concat(texts))
  {
    if pieces != [] {
      assert Comes(pieces[0], outputs, texts[0]);
      if pieces[0].Named? {
        WritesScalars(Lookup(pieces[0].reference, outputs).value);
      }
      forall i | 0 <= i < |pieces| - 1 ensures Comes(pieces[1..][i], outputs, texts[1..][i]) {
        assert Comes(pieces[i + 1], outputs, texts[i + 1]);
      }
      Filled(pieces[1..], outputs, texts[1..]);
    }
  }

  lemma {:induction false} Stopped(pieces: seq<Piece>, outputs: Outputs, k: nat, error: RefError)
    requires StopsAt(pieces, outputs, k, error)
    ensures FillPieces(pieces, Direct(outputs)) == Failure(error)
  {
    if k == 0 {
      if Lookup(pieces[0].reference, outputs).Success? {
        WritesScalars(Lookup(pieces[0].reference, outputs).value);
      }
    } else {
      assert HasText(pieces[0], outputs);
      var text :| Comes(pieces[0], outputs, text);
      if pieces[0].Named? {
        WritesScalars(Lookup(pieces[0].reference, outputs).value);
      }
      assert forall j | 0 <= j < k - 1 :: pieces[1..][j] == pieces[j + 1];
      Stopped(pieces[1..], outputs, k - 1, error);
    }
  }

  lemma {:induction false} FillCases(pieces: seq<Piece>, outputs: Outputs) returns (texts: seq<string>, k: nat)
    ensures match FillPieces(pieces, Direct(outputs))
            case Success(_) => Comprises(pieces, outputs, texts)
            case Failure(e) => StopsAt(pieces, outputs, k, e)
  {
    texts, k := [], 0;
    if pieces != [] {
      var rest, n := FillCases(pieces[1..], outputs);
      if pieces[0].Text? {
        texts, k := [pieces[0].text] + rest, n + 1;
        assert Comes(pieces[0], outputs, texts[0]) && HasText(pieces[0], outputs);
      } else if Lookup(pieces[0].reference, outputs).Success? {
        var found := Lookup(pieces[0].reference, outputs).value;
        WritesScalars(found);
        if ScalarText(found).Some? {
          texts, k := [ScalarText(found).value] + rest, n + 1;
          assert Comes(pieces[0], outputs, texts[0]) && HasText(pieces[0], outputs);
        }
      }
    }
  }

  /** A string with references in it resolves to its pieces written one after the other: text as it
      stands, and each reference as JSON writes the scalar it finds.  The first piece that has no
      such text gives the error. */
  lemma {:induction false} MixedResolves(s: string, outputs: Outputs)
    requires Parse(s).Success? && Parse(s).value.Mixed?
    ensures var pieces := Parse(s).value.pieces;
            && (forall v :: Resolve(Str(s), outputs) == Success(v) <==>
                  exists texts :: Comprises(pieces, outputs, texts) && v == Str(Concat(texts)))
            && (forall e :: Resolve(Str(s), outputs) == Failure(e) <==>
                  exists k: nat :: StopsAt(pieces, outputs, k, e))
  {
    var pieces := Parse(s).value.pieces;
    WithDirect(Str(s), outputs);
    var texts, k := FillCases(pieces, outputs);
    forall texts | Comprises(pieces, outputs, texts) ensures Resolve(Str(s), outputs) == Success(Str(Concat(texts))) {
      Filled(pieces, outputs, texts);
    }
    forall k: nat, e | StopsAt(pieces, outputs, k, e) ensures Resolve(Str(s), outputs) == Failure(e) {
      Stopped(pieces, outputs, k, e);
    }
    match FillPieces(pieces, Direct(outputs))
    case Success(_) =>
      Filled(pieces, outputs, texts);
    case Failure(_) =>
  }

  /** A string that is nothing but a reference resolves to the value found, whatever its type. */
  lemma {:induction false} WholeResolves(reference: Reference, outputs: Outputs)
    requires WellFormed(reference) && '}' !in Body(reference)
    ensures Resolve(Str(Show(reference)), outputs) == Lookup(reference, outputs)
  {
    var s := Show(reference);
    assert s + "" == s;
    ReferenceToken(s, reference, "");
    assert Tokens(s, "") == Success([]);
    assert [Ref(reference)] + [] == [Ref(reference)];
    GroupOne(reference);
    WithDirect(Str(s), outputs);
  }

  lemma {:induction false} GroupOne(reference: Reference)
    ensures Group("", [Ref(reference)]) == [Named(reference)]
  {
    assert [Ref(reference)][1..] == [];
    assert Group("", []) == [];
    assert Flush("") + [Named(reference)] + [] == [Named(reference)];
  }

  // ----- where text, escapes and references stand -----

  lemma {:induction false} TextTokens(whole: string, text: string, rest: string)
    requires '$' !in text && Tokens(whole, rest).Success?
    ensures Tokens(whole, text + rest) == Success(Chars(text) + Tokens(whole, rest).value)
  {
    var tokens := Tokens(whole, rest).value;
    if text == "" {
      assert text + rest == rest && Chars(text) + tokens == tokens;
    } else {
      assert (text + rest)[1..] == text[1..] + rest && (text + rest)[0] == text[0];
      assert text[0] in text;
      TextTokens(whole, text[1..], rest);
      assert [Chr(text[0])] + (Chars(text[1..]) + tokens) == Chars(text) + tokens;
    }
  }

  lemma {:induction false} CharsGroup(literal: string, text: string, rest: seq<Token>)
    ensures Group(literal, Chars(text) + rest) == Group(literal + text, rest)
    decreases |text|
  {
    var all := Chars(text) + rest;
    if text == "" {
      assert all == rest && literal + text == literal;
    } else {
      assert all[1..] == Chars(text[1..]) + rest && all[0] == Chr(text[0]);
      CharsGroup(literal + [text[0]], text[1..], rest);
      assert literal + [text[0]] + text[1..] == literal + text;
    }
  }

  lemma {:induction false} EndTokens(whole: string, text: string)
    requires '$' !in text
    ensures Tokens(whole, text) == Success(Chars(text))
  {
    TextTokens(whole, text, "");
    assert text + "" == text && Chars(text) + [] == Chars(text);
  }

  lemma {:induction false} EndGroup(literal: string, text: string)
    ensures Group(literal, Chars(text)) == Flush(literal + text)
  {
    CharsGroup(literal, text, []);
    assert Chars(text) + [] == Chars(text);
  }

  /** Text with a reference in it parses to that text and that reference. */
  lemma {:induction false} EmbeddedParses(before: string, reference: Reference, after: string)
    requires WellFormed(reference) && '}' !in Body(reference) && '$' !in before && '$' !in after
    ensures Parse(before + Show(reference) + after) ==
            Success(if before == "" && after == "" then Whole(reference)
                    else Mixed(Flush(before) + [Named(reference)] + Flush(after)))
  {
    var s, tail := before + Show(reference) + after, [Ref(reference)] + Chars(after);
    EndTokens(s, after);
    ReferenceToken(s, reference, after);
    TextTokens(s, before, Show(reference) + after);
    assert before + (Show(reference) + after) == s;
    CharsGroup("", before, tail);
    assert "" + before == before && tail[1..] == Chars(after);
    EndGroup("", after);
    assert "" + after == after;
  }

  /** An escape reads as the two characters that would open a reference, and opens none. */
  lemma {:induction false} EscapeReads(before: string, after: string, outputs: Outputs)
    requires '$' !in before && '$' !in after
    ensures Resolve(Str(before + "$${" + after), outputs) == Success(Str(before + "${" + after))
  {
    var s, tail := before + "$${" + after, [Chr('$'), Chr('{')] + Chars(after);
    EndTokens(s, after);
    assert ("$${" + after)[3..] == after;
    TextTokens(s, before, "$${" + after);
    assert before + ("$${" + after) == s;
    assert tail == Chars("${" + after);
    CharsGroup("", before, tail);
    assert "" + before == before;
    EndGroup(before, "${" + after);
    assert before + ("${" + after) == before + "${" + after;
  }

  // ----- a value keeps its shape -----

  /** The values directly inside an array or object, in order. */
  function Parts(value: Json): seq<Json> {
    match value
    case Arr(items) => items
    case Obj(fields) => seq(|fields|, i requires 0 <= i < |fields| => fields[i].value)
    case _ => []
  }

  /** Alike but for what stands inside: an array of the same length, an object with the same names
      in the same places, or the same scalar. */
  ghost predicate SameFrame(value: Json, out: Json) {
    match value
    case Arr(items) => out.Arr? && |out.items| == |items|
    case Obj(fields) =>
      out.Obj? && |out.fields| == |fields| && forall i | 0 <= i < |fields| :: out.fields[i].name == fields[i].name
    case _ => out == value
  }

  ghost predicate PartsResolve(parts: seq<Json>, outputs: Outputs, out: seq<Json>) {
    |out| == |parts| && forall i | 0 <= i < |parts| :: ResolveWith(parts[i], Direct(outputs)) == Success(out[i])
  }

  /** Part `k` is the first that does not resolve. */
  ghost predicate FirstToFail(parts: seq<Json>, outputs: Outputs, k: nat, error: RefError) {
    && k < |parts| && ResolveWith(parts[k], Direct(outputs)) == Failure(error)
    && forall j | 0 <= j < k :: ResolveWith(parts[j], Direct(outputs)).Success?
  }

  ghost predicate SomeFails(parts: seq<Json>, outputs: Outputs, error: RefError) {
    exists k: nat :: FirstToFail(parts, outputs, k, error)
  }

  lemma {:induction false} FailsSplit(parts: seq<Json>, outputs: Outputs, error: RefError)
    requires parts != []
    ensures SomeFails(parts, outputs, error) <==>
            match ResolveWith(parts[0], Direct(outputs))
            case Failure(e) => e == error
            case Success(_) => SomeFails(parts[1..], outputs, error)
  {
    if SomeFails(parts, outputs, error) {
      var k: nat :| FirstToFail(parts, outputs, k, error);
      if k > 0 {
        assert parts[1..][k - 1] == parts[k];
        assert FirstToFail(parts[1..], outputs, k - 1, error);
      }
    }
    match ResolveWith(parts[0], Direct(outputs))
    case Failure(e) =>
      assert FirstToFail(parts, outputs, 0, e);
    case Success(_) =>
      if SomeFails(parts[1..], outputs, error) {
        var k: nat :| FirstToFail(parts[1..], outputs, k, error);
        assert forall j | 1 <= j < k + 1 :: parts[j] == parts[1..][j - 1];
        assert FirstToFail(parts, outputs, k + 1, error);
      }
  }

  lemma {:induction false} ResolvesSplit(parts: seq<Json>, outputs: Outputs, out: seq<Json>)
    requires parts != []
    ensures PartsResolve(parts, outputs, out) <==>
            && out != [] && ResolveWith(parts[0], Direct(outputs)) == Success(out[0])
            && PartsResolve(parts[1..], outputs, out[1..])
  {
    if out != [] && |out| == |parts| {
      assert forall i | 0 <= i < |parts| - 1 :: parts[1..][i] == parts[i + 1] && out[1..][i] == out[i + 1];
      assert (forall i | 0 <= i < |parts| :: ResolveWith(parts[i], Direct(outputs)) == Success(out[i])) <==>
             && ResolveWith(parts[0], Direct(outputs)) == Success(out[0])
             && forall i | 1 <= i < |parts| :: ResolveWith(parts[i], Direct(outputs)) == Success(out[i]);
    }
  }

  lemma {:induction false} ItemsKeepShape(items: seq<Json>, outputs: Outputs)
    ensures forall out :: ResolveItems(items, Direct(outputs)) == Success(out) <==> PartsResolve(items, outputs, out)
    ensures forall e :: ResolveItems(items, Direct(outputs)) == Failure(e) <==> SomeFails(items, outputs, e)
  {
    if items == [] {
    } else {
      ItemsKeepShape(items[1..], outputs);
      forall out ensures ResolveItems(items, Direct(outputs)) == Success(out) <==> PartsResolve(items, outputs, out) {
        ResolvesSplit(items, outputs, out);
        assert out != [] ==> out == [out[0]] + out[1..];
      }
      forall e ensures ResolveItems(items, Direct(outputs)) == Failure(e) <==> SomeFails(items, outputs, e) {
        FailsSplit(items, outputs, e);
      }
    }
  }

  lemma {:induction false} FieldsKeepShape(fields: seq<Field>, outputs: Outputs)
    ensures match ResolveFields(fields, Direct(outputs))
            case Success(out) =>
              && SameFrame(Obj(fields), Obj(out))
              && ResolveItems(Parts(Obj(fields)), Direct(outputs)) == Success(Parts(Obj(out)))
            case Failure(e) => ResolveItems(Parts(Obj(fields)), Direct(outputs)) == Failure(e)
  {
    hide ResolveWith, SameFrame, Parts;
    if fields == [] {
      NoParts();
    } else {
      FieldsKeepShape(fields[1..], outputs);
      PartsSplit(fields);
      match ResolveFields(fields, Direct(outputs))
      case Success(out) =>
        PartsSplit(out);
        assert out[1..] == ResolveFields(fields[1..], Direct(outputs)).value;
        FrameSplit(fields, out);
      case Failure(_) =>
    }
  }

  lemma {:induction false} NoParts()
    ensures Parts(Obj([])) == [] && SameFrame(Obj([]), Obj([]))
  {
  }

  lemma {:induction false} PartsSplit(fields: seq<Field>)
    requires fields != []
    ensures Parts(Obj(fields)) == [fields[0].value] + Parts(Obj(fields[1..]))
    ensures Parts(Obj(fields))[1..] == Parts(Obj(fields[1..]))
  {
  }

  lemma {:induction false} FrameSplit(fields: seq<Field>, out: seq<Field>)
    requires fields != [] && out != [] && fields[0].name == out[0].name
    requires SameFrame(Obj(fields[1..]), Obj(out[1..]))
    ensures SameFrame(Obj(fields), Obj(out))
  {
    assert forall i | 1 <= i < |fields| :: out[i] == out[1..][i - 1] && fields[i] == fields[1..][i - 1];
  }

  lemma {:induction false} SameObject(fields: seq<Field>, a: seq<Field>, b: seq<Field>)
    requires SameFrame(Obj(fields), Obj(a)) && SameFrame(Obj(fields), Obj(b)) && Parts(Obj(a)) == Parts(Obj(b))
    ensures a == b
  {
    forall i | 0 <= i < |a| ensures a[i] == b[i] {
      assert a[i].value == Parts(Obj(a))[i] && b[i].value == Parts(Obj(b))[i];
    }
  }

  /** Resolving reaches every value inside an array or object, moves none and drops none; the first
      that does not resolve gives the error.  What is no string, array or object stays as it is. */
  lemma {:induction false} ResolveKeepsShape(value: Json, outputs: Outputs)
    requires !value.Str?
    ensures forall out :: ResolveWith(value, Direct(outputs)) == Success(out) <==>
              SameFrame(value, out) && PartsResolve(Parts(value), outputs, Parts(out))
    ensures forall e :: ResolveWith(value, Direct(outputs)) == Failure(e) <==> SomeFails(Parts(value), outputs, e)
  {
    match value
    case Arr(items) =>
      ItemsKeepShape(items, outputs);
    case Obj(fields) =>
      ItemsKeepShape(Parts(value), outputs);
      FieldsKeepShape(fields, outputs);
      forall out
        ensures ResolveWith(value, Direct(outputs)) == Success(out) <==>
                SameFrame(value, out) && PartsResolve(Parts(value), outputs, Parts(out))
      {
        if SameFrame(value, out) && PartsResolve(Parts(value), outputs, Parts(out)) {
          SameObject(fields, out.fields, ResolveFields(fields, Direct(outputs)).value);
        }
      }
    case _ =>
  }

  // ----- the references of a value, in document order -----

  function Flatten(lists: seq<seq<Reference>>): seq<Reference> {
    if lists == [] then [] else lists[0] + Flatten(lists[1..])
  }

  /** What each part holds, part by part. */
  ghost predicate PartsScan(parts: seq<Json>, lists: seq<seq<Reference>>) {
    |lists| == |parts| && forall i | 0 <= i < |parts| :: Scan(parts[i]) == Success(lists[i])
  }

  /** Part `k` is the first that does not parse. */
  ghost predicate FirstUnparsed(parts: seq<Json>, k: nat, error: RefError) {
    && k < |parts| && Scan(parts[k]) == Failure(error)
    && forall j | 0 <= j < k :: Scan(parts[j]).Success?
  }

  lemma {:induction false} ItemsScan(items: seq<Json>) returns (lists: seq<seq<Reference>>, k: nat)
    ensures match ScanItems(items)
            case Success(found) => PartsScan(items, lists) && found == Flatten(lists)
            case Failure(e) => FirstUnparsed(items, k, e)
  {
    lists, k := [], 0;
    if items != [] && Scan(items[0]).Success? {
      var rest, n := ItemsScan(items[1..]);
      lists, k := [Scan(items[0]).value] + rest, n + 1;
      assert forall i | 1 <= i < |items| :: items[i] == items[1..][i - 1];
    }
  }

  lemma {:induction false} FieldsScan(fields: seq<Field>)
    ensures ScanFields(fields) == ScanItems(Parts(Obj(fields)))
  {
    if fields != [] {
      PartsSplit(fields);
      FieldsScan(fields[1..]);
    }
  }

  /** The references of a value are those of the values inside it, one after the other; the first that
      does not parse gives the error. */
  lemma {:induction false} ScanInOrder(value: Json) returns (lists: seq<seq<Reference>>, k: nat)
    requires !value.Str?
    ensures match Scan(value)
            case Success(found) => PartsScan(Parts(value), lists) && found == Flatten(lists)
            case Failure(e) => FirstUnparsed(Parts(value), k, e)
  {
    lists, k := ItemsScan(Parts(value));
    if value.Obj? {
      FieldsScan(value.fields);
    }
  }

  /** The references of a string are those of its pieces, one after the other. */
  lemma {:induction false} PiecesInOrder(front: seq<Piece>, back: seq<Piece>)
    ensures PieceRefs(front + back) == PieceRefs(front) + PieceRefs(back)
    ensures |front| == 1 ==> PieceRefs(front) == match front[0] case Text(_) => [] case Named(r) => [r]
  {
    if front == [] {
      assert front + back == back;
    } else {
      var rest := front[1..];
      assert (front + back)[1..] == rest + back;
      PiecesInOrder(rest, back);
      assert |front| == 1 ==> rest == [];
      ConcatAssoc(if front[0].Named? then [front[0].reference] else [], PieceRefs(rest), PieceRefs(back));
    }
  }
}
